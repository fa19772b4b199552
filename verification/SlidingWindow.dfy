/**
 The sliding-window limiter of system-design/rate-limiter/implementation/local/window.go.

 Admissions are counted in buckets named by the start of their sub-window; buckets that start before
 the window are dropped whole.  Times and sizes are milliseconds; the clock's readings are arguments.
 The one int64 sum that a caller can make overflow, total+n, wraps as in Go.
*/
module SlidingWindow {
  import opened Sets

  const MAX_INT64: int := 0x7fff_ffff_ffff_ffff
  const NS_PER_MS: int := 1_000_000

  function Wrap64(x: int): int {
    (x + MAX_INT64 + 1) % (2 * (MAX_INT64 + 1)) - (MAX_INT64 + 1)
  }

  /** Go's integer division, which drops the fraction. */
  function Quotient(a: int, b: int): int
    requires b > 0
  {
    if a >= 0 then a / b else -((-a) / b)
  }

  function SubWindowKey(ts: int, sub: int): int
    requires sub > 0
  {
    Quotient(ts, sub) * sub
  }

  lemma {:induction false} SubWindowEnds(now: nat, sub: int)
    requires sub > 0
    ensures var end := SubWindowKey(now, sub) + sub; now < end <= now + sub && end == (now / sub + 1) * sub
  {
    var q := now / sub;
    assert now == q * sub + now % sub;
    assert q * sub + sub == (q + 1) * sub;
  }

  lemma {:induction false} KeyNearTime(ts: int, sub: int)
    requires sub > 0
    ensures ts - sub < SubWindowKey(ts, sub)
  {
    if ts >= 0 {
      assert ts == ts / sub * sub + ts % sub;
    } else {
      assert -ts == (-ts) / sub * sub + (-ts) % sub;
    }
  }

  // ----- sums over a map -----

  ghost function SumOver<T>(m: map<T, int>, ks: set<T>): int
    requires ks <= m.Keys
    decreases |ks|
  {
    if ks == {} then 0
    else
      var k :| k in ks;
      m[k] + SumOver(m, ks - {k})
  }

  lemma {:induction false} SumOverAny<T>(m: map<T, int>, ks: set<T>, k: T)
    requires ks <= m.Keys && k in ks
    ensures SumOver(m, ks) == m[k] + SumOver(m, ks - {k})
    decreases |ks|
  {
    var first :| first in ks && SumOver(m, ks) == m[first] + SumOver(m, ks - {first});
    if first != k {
      SumOverAny(m, ks - {first}, k);
      SumOverAny(m, ks - {k}, first);
      assert ks - {first} - {k} == ks - {k} - {first};
    }
  }

  lemma {:induction false} SumOverSame<T>(m: map<T, int>, m': map<T, int>, ks: set<T>)
    requires ks <= m.Keys && ks <= m'.Keys && forall k :: k in ks ==> m[k] == m'[k]
    ensures SumOver(m, ks) == SumOver(m', ks)
    decreases |ks|
  {
    if ks != {} {
      var k := Pick(ks);
      SumOverAny(m, ks, k);
      SumOverAny(m', ks, k);
      SumOverSame(m, m', ks - {k});
    }
  }

  // ----- the limiter -----

  datatype Window = Window(limit: int, size: int, sub: int, counts: map<int, int>)

  ghost function KeysFrom(m: map<int, int>, cutoff: int): set<int> {
    set k | k in m && k >= cutoff
  }

  ghost function SumFrom(m: map<int, int>, cutoff: int): int {
    SumOver(m, KeysFrom(m, cutoff))
  }

  function Purge(m: map<int, int>, cutoff: int): map<int, int> {
    map k | k in m && k >= cutoff :: m[k]
  }

  function AddTo(m: map<int, int>, k: int, n: int): map<int, int> {
    m[k := (if k in m then m[k] else 0) + n]
  }

  ghost predicate Admits(w: Window, now: int, n: int) {
    Wrap64(SumFrom(w.counts, now - w.size) + n) <= w.limit
  }

  /** The window after Allow(n) at time now. */
  ghost function AfterAllow(w: Window, now: int, n: int): Window
    requires w.sub > 0
  {
    var kept := Purge(w.counts, now - w.size);
    w.(counts := if Admits(w, now, n) then AddTo(kept, SubWindowKey(now, w.sub), n) else kept)
  }

  function NewWindow(limit: int, windowNs: int): Window {
    var sub := Quotient(windowNs, 10);
    Window(limit, Quotient(windowNs, NS_PER_MS), Quotient(if sub < NS_PER_MS then NS_PER_MS else sub, NS_PER_MS), map[])
  }

  class SlidingWindow {
    const limit: int
    const windowSize: int
    const subWindow: int
    var counts: map<int, int>
    var lastWindow: int

    constructor (limit: int, windowNs: int)
      ensures Value() == NewWindow(limit, windowNs)
      ensures this.limit == limit && counts == map[] && subWindow >= 1
      ensures windowNs >= 0 ==> windowSize == windowNs / NS_PER_MS
      ensures subWindow == if windowNs < 10 * NS_PER_MS then 1 else windowNs / 10 / NS_PER_MS
    {
      var sub := Quotient(windowNs, 10);
      if sub < NS_PER_MS {
        sub := NS_PER_MS;
      }
      this.limit := limit;
      windowSize := Quotient(windowNs, NS_PER_MS);
      subWindow := Quotient(sub, NS_PER_MS);
      counts, lastWindow := map[], 0;
    }

    function Value(): Window
      reads this
    {
      Window(limit, windowSize, subWindow, counts)
    }

    /** Adds up the buckets that start at the cutoff or later. */
    method TotalFrom(cutoff: int) returns (total: int)
      ensures total == SumFrom(counts, cutoff)
    {
      total := 0;
      var todo := counts.Keys;
      ghost var left := KeysFrom(counts, cutoff);
      while todo != {}
        invariant left <= todo <= counts.Keys && forall k :: k in todo && k >= cutoff ==> k in left
        invariant forall k :: k in left ==> k >= cutoff
        invariant total + SumOver(counts, left) == SumFrom(counts, cutoff)
        decreases |todo|
      {
        ghost var some := Pick(todo);
        var k :| k in todo;
        if k >= cutoff {
          SumOverAny(counts, left, k);
          total := total + counts[k];
          left := left - {k};
        }
        todo := todo - {k};
      }
      assert left == {};
    }

    /** Drops the buckets that start before the cutoff. */
    method DropBefore(cutoff: int)
      modifies this`counts
      ensures counts == Purge(old(counts), cutoff)
    {
      var todo := counts.Keys;
      while todo != {}
        invariant todo <= counts.Keys <= old(counts).Keys
        invariant forall k :: k in counts ==> counts[k] == old(counts)[k] && (k in todo || k >= cutoff)
        invariant forall k :: k in old(counts) && k >= cutoff ==> k in counts
        decreases |todo|
      {
        ghost var some := Pick(todo);
        var k :| k in todo;
        if k < cutoff {
          counts := counts - {k};
        }
        todo := todo - {k};
      }
      assert counts.Keys == Purge(old(counts), cutoff).Keys;
    }

    method Allow(now: int, n: int) returns (ok: bool)
      requires subWindow > 0
      modifies this
      ensures ok <==> Admits(old(Value()), now, n)
      ensures Value() == AfterAllow(old(Value()), now, n)
    {
      var currentSub := SubWindowKey(now, subWindow);
      var cutoff := now - windowSize;
      PurgeKeepsSums(counts, cutoff, cutoff);
      DropBefore(cutoff);
      var total := TotalFrom(cutoff);
      if Wrap64(total + n) > limit {
        return false;
      }
      counts := AddTo(counts, currentSub, n);
      lastWindow := currentSub;
      return true;
    }

    method Status(now: int) returns (remaining: int, resetAt: int)
      requires subWindow > 0
      ensures remaining == Remaining(Value(), now)
      ensures resetAt == SubWindowKey(now, subWindow) + subWindow
      ensures now >= 0 ==> now < resetAt <= now + subWindow && resetAt == (now / subWindow + 1) * subWindow
    {
      var total := TotalFrom(now - windowSize);
      remaining := if limit - total > 0 then limit - total else 0;
      resetAt := SubWindowKey(now, subWindow) + subWindow;
      if now >= 0 { SubWindowEnds(now, subWindow); }
    }
  }

  ghost function Remaining(w: Window, now: int): int {
    var left := w.limit - SumFrom(w.counts, now - w.size);
    if left > 0 then left else 0
  }

  lemma {:induction false} PurgeKeepsSums(m: map<int, int>, cutoff: int, c: int)
    requires cutoff <= c
    ensures SumFrom(Purge(m, cutoff), c) == SumFrom(m, c)
  {
    assert KeysFrom(Purge(m, cutoff), c) == KeysFrom(m, c);
    SumOverSame(Purge(m, cutoff), m, KeysFrom(m, c));
  }

  lemma {:induction false} AddToSum(m: map<int, int>, k: int, n: int, c: int)
    ensures SumFrom(AddTo(m, k, n), c) == SumFrom(m, c) + (if k >= c then n else 0)
  {
    var m' := AddTo(m, k, n);
    if k >= c {
      var rest := KeysFrom(m, c) - {k};
      assert KeysFrom(m', c) == rest + {k} && KeysFrom(m', c) - {k} == rest;
      SumOverAny(m', KeysFrom(m', c), k);
      SumOverSame(m', m, rest);
      if k in m {
        SumOverAny(m, KeysFrom(m, c), k);
      } else {
        assert KeysFrom(m, c) == rest;
      }
    } else {
      assert KeysFrom(m', c) == KeysFrom(m, c);
      SumOverSame(m', m, KeysFrom(m, c));
    }
  }

  // ----- runs -----

  datatype Call = Call(now: int, n: int)

  /** A run and what it admitted, in order. */
  datatype Run = Run(window: Window, admitted: seq<Call>)

  ghost function Stepped(r: Run, c: Call): Run
    requires r.window.sub > 0
  {
    Run(AfterAllow(r.window, c.now, c.n), if Admits(r.window, c.now, c.n) then r.admitted + [c] else r.admitted)
  }

  ghost function RunCalls(w: Window, calls: seq<Call>): (r: Run)
    requires w.sub > 0
    ensures r.window.limit == w.limit && r.window.size == w.size && r.window.sub == w.sub
  {
    if calls == [] then Run(w, [])
    else
      Stepped(RunCalls(w, calls[..|calls| - 1]), calls[|calls| - 1])
  }

  /** The clock never goes back, amounts are not negative, and none is so large that the sum wraps. */
  predicate Proper(w: Window, calls: seq<Call>) {
    && (forall i, j :: 0 <= i < j < |calls| ==> calls[i].now <= calls[j].now)
    && (forall i :: 0 <= i < |calls| ==> 0 <= calls[i].n && calls[i].n + Cap(w.limit) <= MAX_INT64)
    && -MAX_INT64 <= w.limit
  }

  function Cap(limit: int): int {
    if limit > 0 then limit else 0
  }

  /** The amount of the calls whose bucket starts at cutoff or later. */
  function BucketSum(calls: seq<Call>, sub: int, cutoff: int): int
    requires sub > 0
  {
    if calls == [] then 0
    else
      var c := calls[|calls| - 1];
      BucketSum(calls[..|calls| - 1], sub, cutoff) + (if SubWindowKey(c.now, sub) >= cutoff then c.n else 0)
  }

  /** The amount of the calls made in the closed span from a to b. */
  function SpanSum(calls: seq<Call>, a: int, b: int): int {
    if calls == [] then 0
    else
      var c := calls[|calls| - 1];
      SpanSum(calls[..|calls| - 1], a, b) + (if a <= c.now <= b then c.n else 0)
  }

  /** Admissions came in order, none was negative, and each left the buckets of its window within the limit. */
  ghost predicate Kept(w: Window, admitted: seq<Call>)
    requires w.sub > 0
  {
    admitted == [] ||
    var before, last := admitted[..|admitted| - 1], admitted[|admitted| - 1];
    && Kept(w, before) && last.n >= 0
    && (before != [] ==> before[|before| - 1].now <= last.now)
    && BucketSum(admitted, w.sub, last.now - w.size) <= Cap(w.limit)
  }

  /** The buckets agree with the history for every window that can still matter. */
  ghost predicate Agrees(r: Run, cutoff: int)
    requires r.window.sub > 0
  {
    forall c :: c >= cutoff ==> SumFrom(r.window.counts, c) == BucketSum(r.admitted, r.window.sub, c)
  }

  lemma ProperPrefix(w: Window, calls: seq<Call>)
    requires Proper(w, calls) && calls != []
    ensures Proper(w, calls[..|calls| - 1])
  {
  }

  lemma {:induction false} BucketSumNonNegative(w: Window, calls: seq<Call>, cutoff: int)
    requires w.sub > 0 && Kept(w, calls)
    ensures BucketSum(calls, w.sub, cutoff) >= 0
  {
    if calls != [] { BucketSumNonNegative(w, calls[..|calls| - 1], cutoff); }
  }

  /** Later windows count no more than earlier ones. */
  lemma {:induction false} BucketSumShrinks(w: Window, calls: seq<Call>, c: int, c': int)
    requires w.sub > 0 && c <= c' && Kept(w, calls)
    ensures BucketSum(calls, w.sub, c') <= BucketSum(calls, w.sub, c)
  {
    if calls != [] { BucketSumShrinks(w, calls[..|calls| - 1], c, c'); }
  }

  lemma {:induction false} BucketSumGrows(calls: seq<Call>, c: Call, sub: int, cutoff: int)
    requires sub > 0
    ensures BucketSum(calls + [c], sub, cutoff) ==
      BucketSum(calls, sub, cutoff) + (if SubWindowKey(c.now, sub) >= cutoff then c.n else 0)
  {
    assert (calls + [c])[..|calls|] == calls;
  }

  lemma NoWrap(x: int)
    requires -MAX_INT64 <= x <= MAX_INT64
    ensures Wrap64(x) == x
  {
  }

  /** With nothing admitted since an older time, the buckets of a later window hold at most the cap. */
  lemma {:induction false} WithinCap(w: Window, admitted: seq<Call>, cutoff: int)
    requires w.sub > 0 && Kept(w, admitted) && (admitted != [] ==> admitted[|admitted| - 1].now - w.size <= cutoff)
    ensures 0 <= BucketSum(admitted, w.sub, cutoff) <= Cap(w.limit)
  {
    BucketSumNonNegative(w, admitted, cutoff);
    if admitted != [] {
      BucketSumShrinks(w, admitted, admitted[|admitted| - 1].now - w.size, cutoff);
    }
  }

  /** Everything a run keeps: t is the time of its last call. */
  ghost predicate Sound(r: Run, t: int)
    requires r.window.sub > 0
  {
    && Kept(r.window, r.admitted) && Agrees(r, t - r.window.size)
    && (r.admitted != [] ==> r.admitted[|r.admitted| - 1].now <= t)
  }

  /** The sum that Allow makes for this call stays within int64. */
  ghost predicate Fits(r: Run, c: Call)
    requires r.window.sub > 0
  {
    BucketSum(r.admitted, r.window.sub, c.now - r.window.size) + c.n <= MAX_INT64
  }

  /** While the buckets agree with the history, Allow compares the history's sum with the limit. */
  lemma {:induction false} AdmitsBySum(r: Run, t: int, c: Call)
    requires r.window.sub > 0 && Sound(r, t) && t <= c.now && 0 <= c.n && Fits(r, c)
    ensures SumFrom(r.window.counts, c.now - r.window.size) ==
      BucketSum(r.admitted, r.window.sub, c.now - r.window.size)
    ensures Admits(r.window, c.now, c.n) <==>
      BucketSum(r.admitted, r.window.sub, c.now - r.window.size) + c.n <= r.window.limit
  {
    var cutoff := c.now - r.window.size;
    WithinCap(r.window, r.admitted, cutoff);
    NoWrap(SumFrom(r.window.counts, cutoff) + c.n);
  }

  lemma {:induction false} FitsUnderCap(r: Run, t: int, c: Call)
    requires r.window.sub > 0 && Sound(r, t) && t <= c.now && c.n + Cap(r.window.limit) <= MAX_INT64
    ensures Fits(r, c)
  {
    WithinCap(r.window, r.admitted, c.now - r.window.size);
  }

  lemma {:induction false} StepAgrees(r: Run, t: int, c: Call)
    requires r.window.sub > 0 && Agrees(r, t - r.window.size) && t <= c.now
    ensures Agrees(Stepped(r, c), c.now - r.window.size)
  {
    var w, r' := r.window, Stepped(r, c);
    forall x | x >= c.now - w.size ensures SumFrom(r'.window.counts, x) == BucketSum(r'.admitted, w.sub, x) {
      PurgeKeepsSums(w.counts, c.now - w.size, x);
      AddToSum(Purge(w.counts, c.now - w.size), SubWindowKey(c.now, w.sub), c.n, x);
      BucketSumGrows(r.admitted, c, w.sub, x);
    }
  }

  lemma {:induction false} StepSound(r: Run, t: int, c: Call)
    requires r.window.sub > 0 && Sound(r, t) && t <= c.now && 0 <= c.n && Fits(r, c)
    ensures Sound(Stepped(r, c), c.now)
  {
    var w := r.window;
    StepAgrees(r, t, c);
    AdmitsBySum(r, t, c);
    if Admits(w, c.now, c.n) {
      BucketSumGrows(r.admitted, c, w.sub, c.now - w.size);
      KeptGrows(w, r.admitted, c);
    }
    KeptSameSize(Stepped(r, c).window, w, Stepped(r, c).admitted);
  }

  lemma {:induction false} KeptGrows(w: Window, admitted: seq<Call>, c: Call)
    requires w.sub > 0 && Kept(w, admitted) && c.n >= 0 && (admitted != [] ==> admitted[|admitted| - 1].now <= c.now)
    requires BucketSum(admitted + [c], w.sub, c.now - w.size) <= Cap(w.limit)
    ensures Kept(w, admitted + [c])
  {
    assert (admitted + [c])[..|admitted|] == admitted;
  }

  lemma {:induction false} KeptSameSize(w: Window, w': Window, admitted: seq<Call>)
    requires w'.sub > 0 && w.limit == w'.limit && w.size == w'.size && w.sub == w'.sub && Kept(w', admitted)
    ensures Kept(w, admitted)
  {
    if admitted != [] { KeptSameSize(w, w', admitted[..|admitted| - 1]); }
  }

  lemma {:induction false} StartSound(w: Window, t: int)
    requires w.sub > 0 && w.counts == map[]
    ensures Sound(Run(w, []), t)
  {
    forall x ensures SumFrom(w.counts, x) == 0 {
      assert KeysFrom(w.counts, x) == {};
    }
  }

  lemma {:induction false} RunSound(w: Window, calls: seq<Call>)
    requires w.sub > 0 && w.counts == map[] && Proper(w, calls)
    ensures calls != [] ==> Sound(RunCalls(w, calls), calls[|calls| - 1].now)
  {
    if calls != [] {
      var before, c := calls[..|calls| - 1], calls[|calls| - 1];
      ProperPrefix(w, calls);
      var t := if before == [] then c.now else before[|before| - 1].now;
      if before == [] { StartSound(w, t); } else { RunSound(w, before); }
      FitsUnderCap(RunCalls(w, before), t, c);
      StepSound(RunCalls(w, before), t, c);
    }
  }

  // ----- how much a span of time can admit -----

  lemma {:induction false} SpanWithinBuckets(w: Window, calls: seq<Call>, a: int, b: int, cutoff: int)
    requires w.sub > 0 && cutoff <= a - w.sub + 1 && Kept(w, calls)
    ensures SpanSum(calls, a, b) <= BucketSum(calls, w.sub, cutoff)
  {
    if calls != [] {
      SpanWithinBuckets(w, calls[..|calls| - 1], a, b, cutoff);
      KeyNearTime(calls[|calls| - 1].now, w.sub);
    }
  }

  lemma {:induction false} SpanBehind(w: Window, calls: seq<Call>, a: int, b: int)
    requires w.sub > 0 && Kept(w, calls) && (calls == [] || calls[|calls| - 1].now < a || b < a)
    ensures SpanSum(calls, a, b) == 0
  {
    if calls != [] { SpanBehind(w, calls[..|calls| - 1], a, b); }
  }

  lemma {:induction false} KeptBoundsSpan(w: Window, admitted: seq<Call>, a: int, b: int)
    requires w.sub > 0 && Kept(w, admitted) && b - a <= w.size - w.sub + 1
    ensures SpanSum(admitted, a, b) <= Cap(w.limit)
  {
    if admitted != [] {
      var last := admitted[|admitted| - 1];
      if last.now > b {
        KeptBoundsSpan(w, admitted[..|admitted| - 1], a, b);
      } else if last.now < a {
        SpanBehind(w, admitted, a, b);
      } else {
        SpanWithinBuckets(w, admitted, a, b, last.now - w.size);
      }
    }
  }

  /** What a run from a new window admits in the closed span from a to b. */
  ghost function AdmittedIn(w: Window, calls: seq<Call>, a: int, b: int): int
    requires w.sub > 0
  {
    SpanSum(RunCalls(w, calls).admitted, a, b)
  }

  lemma {:induction false} RunKept(w: Window, calls: seq<Call>)
    requires w.sub > 0 && w.counts == map[] && Proper(w, calls)
    ensures Kept(w, RunCalls(w, calls).admitted)
  {
    RunSound(w, calls);
    KeptSameSize(w, RunCalls(w, calls).window, RunCalls(w, calls).admitted);
  }

  /** In any closed span of at most windowSize - subWindow + 1 milliseconds a run admits at most the limit. */
  lemma {:induction false} AtMostLimit(w: Window, calls: seq<Call>, a: int, b: int)
    requires w.sub > 0 && w.counts == map[] && Proper(w, calls) && b - a <= w.size - w.sub + 1
    ensures AdmittedIn(w, calls, a, b) <= Cap(w.limit)
  {
    RunKept(w, calls);
    KeptBoundsSpan(w, RunCalls(w, calls).admitted, a, b);
  }

  lemma {:induction false} SpanSplit(calls: seq<Call>, a: int, m: int, b: int)
    requires a <= m <= b
    ensures SpanSum(calls, a, b) == SpanSum(calls, a, m) + SpanSum(calls, m + 1, b)
  {
    if calls != [] { SpanSplit(calls[..|calls| - 1], a, m, b); }
  }

  /** In any closed span of one window a limiter made by NewSlidingWindow admits at most twice the limit. */
  lemma {:induction false} AtMostTwiceLimit(limit: int, windowNs: int, calls: seq<Call>, a: int)
    requires NewWindow(limit, windowNs).sub > 0 && Proper(NewWindow(limit, windowNs), calls)
    ensures var w := NewWindow(limit, windowNs); AdmittedIn(w, calls, a, a + w.size) <= 2 * Cap(limit)
  {
    var w := NewWindow(limit, windowNs);
    RunKept(w, calls);
    SubWindowIsSmall(limit, windowNs);
    KeptBoundsTwice(w, RunCalls(w, calls).admitted, a);
  }

  lemma {:induction false} KeptBoundsTwice(w: Window, admitted: seq<Call>, a: int)
    requires w.sub > 0 && Kept(w, admitted) && (w.size >= 0 ==> w.sub == 1 || 2 * w.sub <= w.size + 3)
    ensures SpanSum(admitted, a, a + w.size) <= 2 * Cap(w.limit)
  {
    var m := a + w.size - w.sub + 1;
    if w.size < 0 {
      SpanBehind(w, admitted, a, a + w.size);
    } else if m < a + w.size {
      SpanSplit(admitted, a, m, a + w.size);
      KeptBoundsSpan(w, admitted, a, m);
      KeptBoundsSpan(w, admitted, m + 1, a + w.size);
    } else {
      KeptBoundsSpan(w, admitted, a, a + w.size);
    }
  }

  /** The constructor's sub-window is a whole number of milliseconds, at most a tenth of the window or one. */
  lemma SubWindowIsSmall(limit: int, windowNs: int)
    ensures var w := NewWindow(limit, windowNs); w.sub >= 1 && (w.size >= 0 ==> w.sub == 1 || 10 * w.sub <= w.size)
  {
  }

  ghost predicate LimitHolds(w: Window, length: int)
    requires w.sub > 0
  {
    forall calls, a, b :: Proper(w, calls) && b - a == length ==> AdmittedIn(w, calls, a, b) <= w.limit
  }

  /** m more calls of 1 at time t. */
  function AddBurst(calls: seq<Call>, t: int, m: nat): seq<Call> {
    if m == 0 then calls else AddBurst(calls, t, m - 1) + [Call(t, 1)]
  }

  /** The whole limit just before a sub-window ends, and again once its bucket has left. */
  function TwoBursts(w: Window): seq<Call>
    requires w.limit >= 0
  {
    AddBurst(AddBurst([], w.sub - 1, w.limit), w.size + 1, w.limit)
  }

  lemma {:induction false} SpanGrows(calls: seq<Call>, c: Call, a: int, b: int)
    ensures SpanSum(calls + [c], a, b) == SpanSum(calls, a, b) + (if a <= c.now <= b then c.n else 0)
  {
    assert (calls + [c])[..|calls|] == calls;
  }

  lemma {:induction false} BurstSpan(calls: seq<Call>, t: int, m: nat, a: int, b: int)
    ensures SpanSum(AddBurst(calls, t, m), a, b) == SpanSum(calls, a, b) + (if a <= t <= b then m else 0)
  {
    if m > 0 {
      BurstSpan(calls, t, m - 1, a, b);
      SpanGrows(AddBurst(calls, t, m - 1), Call(t, 1), a, b);
    }
  }

  lemma {:induction false} BurstProper(w: Window, calls: seq<Call>, t: int, m: nat)
    requires 0 <= w.limit < MAX_INT64 && Proper(w, calls) && forall i :: 0 <= i < |calls| ==> calls[i].now <= t
    ensures var more := AddBurst(calls, t, m); Proper(w, more) && forall i :: 0 <= i < |more| ==> more[i].now <= t
  {
    if m > 0 { BurstProper(w, calls, t, m - 1); }
  }

  lemma {:induction false} BurstBuckets(calls: seq<Call>, t: int, m: nat, sub: int, cutoff: int)
    requires sub > 0
    ensures BucketSum(AddBurst(calls, t, m), sub, cutoff) ==
      BucketSum(calls, sub, cutoff) + (if SubWindowKey(t, sub) >= cutoff then m else 0)
  {
    if m > 0 {
      BurstBuckets(calls, t, m - 1, sub, cutoff);
      BucketSumGrows(AddBurst(calls, t, m - 1), Call(t, 1), sub, cutoff);
    }
  }

  /** Every one of the calls is admitted. */
  ghost predicate AllAdmitted(w: Window, calls: seq<Call>, last: int)
    requires w.sub > 0
  {
    RunCalls(w, calls).admitted == calls && Sound(RunCalls(w, calls), last)
  }

  /** One more call of 1 that the limit has room for. */
  lemma {:induction false} OneMoreAdmitted(w: Window, calls: seq<Call>, last: int, t: int)
    requires w.sub > 0 && w.limit < MAX_INT64 && last <= t && AllAdmitted(w, calls, last)
    requires BucketSum(calls, w.sub, t - w.size) < w.limit
    ensures AllAdmitted(w, calls + [Call(t, 1)], t)
  {
    var r := RunCalls(w, calls);
    assert (calls + [Call(t, 1)])[..|calls|] == calls;
    AdmitsBySum(r, last, Call(t, 1));
    StepSound(r, last, Call(t, 1));
  }

  /** Into a window without admissions in force a burst of up to the limit is admitted. */
  lemma {:induction false} BurstAdmitted(w: Window, calls: seq<Call>, last: int, t: int, m: nat)
    requires w.sub > 0 && 0 < m <= w.limit < MAX_INT64 && last <= t && AllAdmitted(w, calls, last)
    requires BucketSum(calls, w.sub, t - w.size) == 0
    ensures AllAdmitted(w, AddBurst(calls, t, m), t)
  {
    var before, at := AddBurst(calls, t, m - 1), last;
    if m > 1 {
      BurstAdmitted(w, calls, last, t, m - 1);
      at := t;
    }
    BurstBuckets(calls, t, m - 1, w.sub, t - w.size);
    OneMoreAdmitted(w, before, at, t);
  }

  lemma FirstKey(sub: int)
    requires sub > 0
    ensures SubWindowKey(sub - 1, sub) == 0
  {
  }

  lemma {:induction false} TwoBurstsProper(w: Window)
    requires 0 < w.limit < MAX_INT64 && w.sub <= w.size + 2
    ensures Proper(w, TwoBursts(w))
  {
    BurstProper(w, [], w.sub - 1, w.limit);
    BurstProper(w, AddBurst([], w.sub - 1, w.limit), w.size + 1, w.limit);
  }

  lemma {:induction false} FirstBurstGone(w: Window)
    requires w.sub > 0 && 0 < w.limit
    ensures BucketSum(AddBurst([], w.sub - 1, w.limit), w.sub, 1) == 0
  {
    FirstKey(w.sub);
    BurstBuckets([], w.sub - 1, w.limit, w.sub, 1);
  }

  lemma {:induction false} TwoBurstsAdmitted(w: Window)
    requires w.sub > 0 && w.counts == map[] && 0 < w.limit < MAX_INT64 && w.sub <= w.size + 2
    ensures RunCalls(w, TwoBursts(w)).admitted == TwoBursts(w)
  {
    var first := AddBurst([], w.sub - 1, w.limit);
    StartSound(w, w.sub - 1);
    BurstAdmitted(w, [], w.sub - 1, w.sub - 1, w.limit);
    FirstBurstGone(w);
    BurstAdmitted(w, first, w.sub - 1, w.size + 1, w.limit);
  }

  lemma {:induction false} TwoBurstsSpan(w: Window, length: int)
    requires 0 < w.limit && length > w.size - w.sub + 1 && w.sub <= w.size + 2
    ensures SpanSum(TwoBursts(w), w.sub - 1, w.sub - 1 + length) == 2 * w.limit
  {
    var a, b := w.sub - 1, w.sub - 1 + length;
    BurstSpan([], a, w.limit, a, b);
    BurstSpan(AddBurst([], a, w.limit), w.size + 1, w.limit, a, b);
  }

  /** Twice the limit is reached as soon as the span is a millisecond longer than those in which the limit holds. */
  lemma {:induction false} TwiceLimitReached(w: Window, length: int)
    requires w.sub > 0 && w.counts == map[] && 0 < w.limit < MAX_INT64 && w.sub <= w.size + 2
    requires length > w.size - w.sub + 1
    ensures Proper(w, TwoBursts(w)) && AdmittedIn(w, TwoBursts(w), w.sub - 1, w.sub - 1 + length) == 2 * w.limit
  {
    TwoBurstsProper(w);
    TwoBurstsAdmitted(w);
    TwoBurstsSpan(w, length);
  }

  /** The length is exact: for a longer span the limit is exceeded by some run. */
  lemma {:induction false} LimitHoldsExactly(w: Window, length: int)
    requires w.sub > 0 && w.counts == map[] && 0 < w.limit < MAX_INT64 && w.sub <= w.size + 2
    ensures LimitHolds(w, length) <==> length <= w.size - w.sub + 1
  {
    if length <= w.size - w.sub + 1 {
      forall calls, a, b | Proper(w, calls) && b - a == length ensures AdmittedIn(w, calls, a, b) <= w.limit {
        AtMostLimit(w, calls, a, b);
      }
    } else {
      TwiceLimitReached(w, length);
      assert w.sub - 1 + length - (w.sub - 1) == length;
    }
  }

  /** What Status reports as remaining is exactly what Allow will grant at that moment. */
  lemma {:induction false} StatusPredictsAllow(w: Window, calls: seq<Call>, c: Call)
    requires w.sub > 0 && w.counts == map[] && Proper(w, calls + [c]) && c.n >= 1
    ensures var before := RunCalls(w, calls).window; Admits(before, c.now, c.n) <==> c.n <= Remaining(before, c.now)
  {
    var all, r := calls + [c], RunCalls(w, calls);
    assert all[|calls|] == c && all[..|calls|] == calls;
    ProperPrefix(w, all);
    RunSound(w, calls);
    var t := if calls == [] then c.now else calls[|calls| - 1].now;
    if calls == [] {
      StartSound(w, t);
    } else {
      assert all[|calls| - 1] == calls[|calls| - 1];
    }
    FitsUnderCap(r, t, c);
    AdmitsBySum(r, t, c);
  }

  // ----- the amounts for which the limit holds -----

  /** The clock never goes back, and amounts lie between lo and hi. */
  predicate Between(calls: seq<Call>, lo: int, hi: int) {
    calls == [] ||
    var before, last := calls[..|calls| - 1], calls[|calls| - 1];
    Between(before, lo, hi) && lo <= last.n <= hi && (before != [] ==> before[|before| - 1].now <= last.now)
  }

  ghost predicate LimitHoldsFor(w: Window, lo: int, hi: int, length: int)
    requires w.sub > 0
  {
    forall calls, a, b :: Between(calls, lo, hi) && b - a == length ==> AdmittedIn(w, calls, a, b) <= w.limit
  }

  /** What k amounts of x add up to. */
  function Times(k: nat, x: int): int {
    if k == 0 then 0 else Times(k - 1, x) + x
  }

  /** How many amounts of at least lo the limit has room for. */
  function Room(limit: int, lo: int): nat
    requires limit >= 0
  {
    if lo > 1 then limit / lo else limit
  }

  /** The most that amounts from lo to hi can add up to within the limit. */
  function Most(limit: int, lo: int, hi: int): int
    requires limit >= 0
  {
    var all := Times(Room(limit, lo), hi);
    if all < limit then all else limit
  }

  lemma {:induction false} TimesIsProduct(k: nat, x: int)
    ensures Times(k, x) == k * x
  {
    if k > 0 { TimesIsProduct(k - 1, x); }
  }

  lemma {:induction false} TimesGrows(k: nat, m: nat, x: int, y: int)
    requires k <= m && x <= y && 0 <= y
    ensures Times(k, x) <= Times(m, y) && 0 <= Times(m, y)
  {
    if m > 0 { TimesGrows(if k < m then k else k - 1, m - 1, x, y); }
  }

  lemma {:induction false} RoomIsExact(limit: int, lo: int)
    requires limit >= 0 && lo >= 0
    ensures Times(Room(limit, lo), lo) <= limit
    ensures lo > 1 ==> limit < Times(Room(limit, lo) + 1, lo)
  {
    if lo > 1 {
      TimesIsProduct(limit / lo, lo);
    } else {
      TimesIsProduct(limit, lo);
    }
  }

  lemma {:induction false} MostOfUnits(limit: int, lo: int, hi: int)
    requires limit >= 0 && hi >= 1 && lo <= 1
    ensures Most(limit, lo, hi) == limit
  {
    TimesIsProduct(limit, 1);
    TimesGrows(limit, limit, 1, hi);
  }

  lemma {:induction false} MostIsMost(limit: int, lo: int, hi: int, k: nat, total: int)
    requires limit >= 0 && 0 <= lo <= hi && 1 <= hi && Times(k, lo) <= total <= Times(k, hi) && total <= limit
    ensures total <= Most(limit, lo, hi)
  {
    if lo > 1 {
      RoomIsExact(limit, lo);
      if k > Room(limit, lo) {
        TimesGrows(Room(limit, lo) + 1, k, lo, lo);
      } else {
        TimesGrows(k, Room(limit, lo), hi, hi);
      }
    } else {
      MostOfUnits(limit, lo, hi);
    }
  }

  /** The buckets of a window hold some number of amounts. */
  lemma {:induction false} BucketSumBetween(calls: seq<Call>, sub: int, cutoff: int, lo: int, hi: int) returns (k: nat)
    requires sub > 0 && Between(calls, lo, hi)
    ensures Times(k, lo) <= BucketSum(calls, sub, cutoff) <= Times(k, hi)
  {
    k := 0;
    if calls != [] {
      k := BucketSumBetween(calls[..|calls| - 1], sub, cutoff, lo, hi);
      if SubWindowKey(calls[|calls| - 1].now, sub) >= cutoff { k := k + 1; }
    }
  }

  lemma {:induction false} FitsUnderMost(r: Run, t: int, c: Call, lo: int, hi: int)
    requires r.window.sub > 0 && r.window.limit >= 0 && Sound(r, t) && t <= c.now && Between(r.admitted, lo, hi)
    requires 0 <= lo <= c.n <= hi && 1 <= hi && hi + Most(r.window.limit, lo, hi) <= MAX_INT64
    ensures Fits(r, c)
  {
    var cutoff := c.now - r.window.size;
    WithinCap(r.window, r.admitted, cutoff);
    var k := BucketSumBetween(r.admitted, r.window.sub, cutoff, lo, hi);
    MostIsMost(r.window.limit, lo, hi, k, BucketSum(r.admitted, r.window.sub, cutoff));
  }

  lemma {:induction false} RunSoundBetween(w: Window, calls: seq<Call>, lo: int, hi: int)
    requires w.sub > 0 && w.counts == map[] && w.limit >= 0 && Between(calls, lo, hi)
    requires 0 <= lo <= hi && 1 <= hi && hi + Most(w.limit, lo, hi) <= MAX_INT64
    ensures var r := RunCalls(w, calls);
      Between(r.admitted, lo, hi) && (calls != [] ==> Sound(r, calls[|calls| - 1].now))
  {
    if calls != [] {
      var before, c := calls[..|calls| - 1], calls[|calls| - 1];
      RunSoundBetween(w, before, lo, hi);
      var t := if before == [] then c.now else before[|before| - 1].now;
      if before == [] { StartSound(w, t); }
      FitsUnderMost(RunCalls(w, before), t, c, lo, hi);
      StepSound(RunCalls(w, before), t, c);
    }
  }

  lemma {:induction false} AtMostLimitBetween(w: Window, calls: seq<Call>, lo: int, hi: int, a: int, b: int)
    requires w.sub > 0 && w.counts == map[] && w.limit >= 0 && Between(calls, lo, hi) && b - a <= w.size - w.sub + 1
    requires 0 <= lo <= hi && 1 <= hi && hi + Most(w.limit, lo, hi) <= MAX_INT64
    ensures AdmittedIn(w, calls, a, b) <= w.limit
  {
    RunSoundBetween(w, calls, lo, hi);
    var r := RunCalls(w, calls);
    KeptSameSize(w, r.window, r.admitted);
    KeptBoundsSpan(w, r.admitted, a, b);
  }

  function Total(calls: seq<Call>): int {
    if calls == [] then 0 else Total(calls[..|calls| - 1]) + calls[|calls| - 1].n
  }

  /** Calls made in order between 0 and late that never take the total above the limit. */
  predicate Filling(w: Window, calls: seq<Call>, late: int) {
    calls == [] ||
    var before, last := calls[..|calls| - 1], calls[|calls| - 1];
    Filling(w, before, late) && Next(w, before, last, late)
  }

  predicate Next(w: Window, before: seq<Call>, c: Call, late: int) {
    && 0 <= c.now <= late && (before != [] ==> before[|before| - 1].now <= c.now)
    && -MAX_INT64 <= Total(before) + c.n <= w.limit
  }

  lemma {:induction false} FillingGrows(w: Window, before: seq<Call>, c: Call, late: int)
    requires Filling(w, before, late) && Next(w, before, c, late)
    ensures Filling(w, before + [c], late) && Total(before + [c]) == Total(before) + c.n
  {
    assert (before + [c])[..|before|] == before;
  }

  lemma {:induction false} BetweenGrows(before: seq<Call>, c: Call, lo: int, hi: int)
    requires Between(before, lo, hi) && lo <= c.n <= hi && (before != [] ==> before[|before| - 1].now <= c.now)
    ensures Between(before + [c], lo, hi)
  {
    assert (before + [c])[..|before|] == before;
  }

  lemma {:induction false} FillingSum(w: Window, calls: seq<Call>, late: int, cutoff: int)
    requires w.sub > 0 && Filling(w, calls, late) && cutoff <= 0
    ensures BucketSum(calls, w.sub, cutoff) == Total(calls)
  {
    if calls != [] { FillingSum(w, calls[..|calls| - 1], late, cutoff); }
  }

  function LastTime(calls: seq<Call>): int {
    if calls == [] then 0 else calls[|calls| - 1].now
  }

  lemma {:induction false} FillingAdmitted(w: Window, calls: seq<Call>, late: int)
    requires w.sub > 0 && w.counts == map[] && w.limit <= MAX_INT64 && late <= w.size && Filling(w, calls, late)
    ensures var r := RunCalls(w, calls); r.admitted == calls && Agrees(r, LastTime(calls) - w.size)
  {
    if calls == [] {
      StartSound(w, 0);
    } else {
      var before, c := calls[..|calls| - 1], calls[|calls| - 1];
      FillingAdmitted(w, before, late);
      FillingNext(w, before, late, c);
      assert calls == before + [c];
    }
  }

  lemma {:induction false} FillingNext(w: Window, before: seq<Call>, late: int, c: Call)
    requires w.sub > 0 && w.limit <= MAX_INT64 && late <= w.size && Filling(w, before, late) && Next(w, before, c, late)
    requires var r := RunCalls(w, before); r.admitted == before && Agrees(r, LastTime(before) - w.size)
    ensures var r := Stepped(RunCalls(w, before), c); r.admitted == before + [c] && Agrees(r, c.now - w.size)
  {
    var r := RunCalls(w, before);
    FillingSum(w, before, late, c.now - w.size);
    assert SumFrom(r.window.counts, c.now - w.size) == Total(before);
    NoWrap(Total(before) + c.n);
    StepAgrees(r, LastTime(before), c);
  }

  /** One more call after such calls. */
  lemma {:induction false} AfterFilling(w: Window, calls: seq<Call>, late: int, c: Call)
    requires w.sub > 0 && w.counts == map[] && w.limit <= MAX_INT64 && late <= w.size && Filling(w, calls, late)
    requires 0 <= c.now <= late && (calls != [] ==> calls[|calls| - 1].now <= c.now)
    requires Wrap64(Total(calls) + c.n) <= w.limit
    ensures RunCalls(w, calls + [c]).admitted == calls + [c]
  {
    FillingAdmitted(w, calls, late);
    FillingSum(w, calls, late, c.now - w.size);
    assert (calls + [c])[..|calls|] == calls;
  }

  /** A call of -1, and then m calls of 1. */
  function Ones(m: nat): (calls: seq<Call>)
    ensures calls != [] && LastTime(calls) <= 1
  {
    if m == 0 then [Call(0, -1)] else Ones(m - 1) + [Call(1, 1)]
  }

  lemma {:induction false} OnesFill(w: Window, m: nat)
    requires 0 <= w.limit && m - 1 <= w.limit
    ensures Filling(w, Ones(m), 1) && Total(Ones(m)) == m - 1
  {
    if m == 0 {
      FillingGrows(w, [], Call(0, -1), 1);
      assert Ones(0) == [] + [Call(0, -1)];
    } else {
      OnesFill(w, m - 1);
      FillingGrows(w, Ones(m - 1), Call(1, 1), 1);
    }
  }

  lemma {:induction false} OnesSpan(m: nat, b: int)
    requires 1 <= b
    ensures SpanSum(Ones(m), 1, b) == m
  {
    if m == 0 {
      SpanGrows([], Call(0, -1), 1, b);
      assert Ones(0) == [] + [Call(0, -1)];
    } else {
      OnesSpan(m - 1, b);
      SpanGrows(Ones(m - 1), Call(1, 1), 1, b);
    }
  }

  lemma {:induction false} OnesBetween(m: nat, lo: int, hi: int)
    requires lo < 0 < hi
    ensures Between(Ones(m), lo, hi)
  {
    if m == 0 {
      BetweenGrows([], Call(0, -1), lo, hi);
      assert Ones(0) == [] + [Call(0, -1)];
    } else {
      OnesBetween(m - 1, lo, hi);
      BetweenGrows(Ones(m - 1), Call(1, 1), lo, hi);
    }
  }

  /** A negative amount makes room for more than the limit. */
  lemma {:induction false} NegativeAmountMakesRoom(w: Window, lo: int, hi: int, length: nat)
    requires w.sub > 0 && w.counts == map[] && 0 < w.limit <= MAX_INT64 && w.size >= 1 && lo < 0 < hi
    ensures var calls := Ones(w.limit + 1); Between(calls, lo, hi) && AdmittedIn(w, calls, 1, 1 + length) == w.limit + 1
  {
    OnesBetween(w.limit + 1, lo, hi);
    OnesSpan(w.limit + 1, 1 + length);
    OnesFill(w, w.limit + 1);
    FillingAdmitted(w, Ones(w.limit + 1), 1);
  }

  /** k amounts between lo and hi that add up to total. */
  function Spread(k: nat, total: int, lo: int, hi: int): seq<Call> {
    if k == 0 then []
    else
      var spare := total - Times(k - 1, hi);
      var n := if spare > lo then spare else lo;
      Spread(k - 1, total - n, lo, hi) + [Call(0, n)]
  }

  lemma {:induction false} SpreadStep(k: nat, total: int, lo: int, hi: int) returns (n: int)
    requires k > 0 && 0 <= lo <= hi && Times(k, lo) <= total <= Times(k, hi)
    ensures Spread(k, total, lo, hi) == Spread(k - 1, total - n, lo, hi) + [Call(0, n)]
    ensures lo <= n <= hi && n <= total && Times(k - 1, lo) <= total - n <= Times(k - 1, hi)
  {
    var spare := total - Times(k - 1, hi);
    n := if spare > lo then spare else lo;
    TimesGrows(k - 1, k - 1, lo, hi);
    TimesGrows(0, k - 1, lo, lo);
  }

  ghost predicate Fills(w: Window, calls: seq<Call>, total: int, lo: int, hi: int) {
    Filling(w, calls, 0) && Total(calls) == total && Between(calls, lo, hi) && LastTime(calls) == 0
  }

  lemma {:induction false} SpreadFills(w: Window, k: nat, total: int, lo: int, hi: int)
    requires 0 <= lo <= hi && Times(k, lo) <= total <= Times(k, hi) && total <= w.limit
    ensures Fills(w, Spread(k, total, lo, hi), total, lo, hi)
  {
    if k > 0 {
      var n := SpreadStep(k, total, lo, hi);
      SpreadFills(w, k - 1, total - n, lo, hi);
      FillingGrows(w, Spread(k - 1, total - n, lo, hi), Call(0, n), 0);
      BetweenGrows(Spread(k - 1, total - n, lo, hi), Call(0, n), lo, hi);
    }
  }

  lemma {:induction false} SpanOfAll(w: Window, calls: seq<Call>, late: int, b: int)
    requires Filling(w, calls, late) && late <= b
    ensures SpanSum(calls, 0, b) == Total(calls)
  {
    if calls != [] { SpanOfAll(w, calls[..|calls| - 1], late, b); }
  }

  /** The window filled as far as it goes, and then the largest amount. */
  function FullThenHuge(limit: int, lo: int, hi: int): seq<Call>
    requires limit >= 0
  {
    Spread(Room(limit, lo), Most(limit, lo, hi), lo, hi) + [Call(0, hi)]
  }

  lemma {:induction false} SpreadMost(w: Window, lo: int, hi: int)
    requires 0 < w.limit && 0 <= lo <= hi
    ensures Fills(w, Spread(Room(w.limit, lo), Most(w.limit, lo, hi), lo, hi), Most(w.limit, lo, hi), lo, hi)
  {
    var k := Room(w.limit, lo);
    RoomIsExact(w.limit, lo);
    TimesGrows(k, k, lo, hi);
    SpreadFills(w, k, Most(w.limit, lo, hi), lo, hi);
  }

  lemma {:induction false} ThenHuge(w: Window, calls: seq<Call>, total: int, lo: int, hi: int, length: nat)
    requires w.sub > 0 && w.counts == map[] && w.limit <= MAX_INT64 && w.size >= 0 && Fills(w, calls, total, lo, hi)
    requires lo <= hi && Wrap64(total + hi) <= w.limit
    ensures Between(calls + [Call(0, hi)], lo, hi) && AdmittedIn(w, calls + [Call(0, hi)], 0, length) == total + hi
  {
    AfterFilling(w, calls, 0, Call(0, hi));
    SpanOfAll(w, calls, 0, length);
    SpanGrows(calls, Call(0, hi), 0, length);
    BetweenGrows(calls, Call(0, hi), lo, hi);
  }

  lemma Wraps(x: int)
    requires MAX_INT64 < x <= 2 * MAX_INT64
    ensures Wrap64(x) < 0
  {
  }

  /** An amount so large that total+n leaves int64 is admitted, however full the window is. */
  lemma {:induction false} HugeAmountWraps(w: Window, lo: int, hi: int, length: nat)
    requires w.sub > 0 && w.counts == map[] && 0 < w.limit <= MAX_INT64 && w.size >= 0
    requires 0 <= lo <= hi && 1 <= hi <= MAX_INT64 && hi + Most(w.limit, lo, hi) > MAX_INT64
    ensures var calls := FullThenHuge(w.limit, lo, hi);
      Between(calls, lo, hi) && AdmittedIn(w, calls, 0, length) == hi + Most(w.limit, lo, hi)
  {
    var most := Most(w.limit, lo, hi);
    SpreadMost(w, lo, hi);
    Wraps(most + hi);
    ThenHuge(w, Spread(Room(w.limit, lo), most, lo, hi), most, lo, hi, length);
  }

  /** The amounts are exact: the limit holds if and only if none is negative and the largest does not leave
      int64 when added to as much as the window can hold; if an amount may be 1, that is the limit. */
  lemma {:induction false} AmountsExactly(w: Window, lo: int, hi: int, length: nat)
    requires w.sub > 0 && w.counts == map[] && 0 < w.limit <= MAX_INT64 && w.size >= 1
    requires length <= w.size - w.sub + 1 && lo <= hi && 1 <= hi <= MAX_INT64
    ensures LimitHoldsFor(w, lo, hi, length) <==> lo >= 0 && hi + Most(w.limit, lo, hi) <= MAX_INT64
    ensures lo <= 1 ==> Most(w.limit, lo, hi) == w.limit
  {
    if lo <= 1 { MostOfUnits(w.limit, lo, hi); }
    if lo < 0 {
      NegativeAmountMakesRoom(w, lo, hi, length);
      assert 1 + length - 1 == length;
    } else if hi + Most(w.limit, lo, hi) > MAX_INT64 {
      HugeAmountWraps(w, lo, hi, length);
      assert length - 0 == length;
    } else {
      forall calls, a, b | Between(calls, lo, hi) && b - a == length ensures AdmittedIn(w, calls, a, b) <= w.limit {
        AtMostLimitBetween(w, calls, lo, hi, a, b);
      }
    }
  }
}
