/**
 The timers of engineering/nodejs/runtime/event-loop-bootstrap/event-loop.js: a binary heap of timers by
 the time they are due, and the map through which they are cleared.

 A turn of the loop in _runTimers is two steps, TakeDue and Rearm; between them the timer's callback runs
 and may set and clear timers.  Times are integers.
*/
module EventLoopTimers {
  import opened Firings
  import opened HeapOrder
  import opened Sequences

  class Timer {
    const id: nat
    const recurring: bool
    const interval: nat
    var triggerAt: int
    var cancelled: bool

    constructor (id: nat, triggerAt: int, recurring: bool, interval: nat)
      ensures this.id == id && this.triggerAt == triggerAt && this.recurring == recurring && this.interval == interval
      ensures !cancelled
    {
      this.id, this.triggerAt, this.recurring, this.interval, cancelled := id, triggerAt, recurring, interval, false;
    }
  }

  ghost predicate FirstMatch<T>(s: seq<T>, p: T ~> bool, i: nat)
    requires forall x :: x in s ==> p.requires(x)
    reads set x, o | x in s && o in p.reads(x) :: o
  {
    i < |s| && p(s[i]) && forall j :: 0 <= j < i ==> !p(s[j])
  }

  class MinHeap {
    var data: seq<Timer>
    ghost var keys: seq<int>  // the times due, slot by slot

    constructor ()
      ensures data == [] && Ordered()
    {
      data, keys := [], [];
    }

    ghost predicate Keyed()
      reads this, data`triggerAt
    {
      Distinct(data) && |keys| == |data| && forall i :: 0 <= i < |data| ==> data[i].triggerAt == keys[i]
    }

    ghost predicate Ordered()
      reads this, data`triggerAt
    {
      Keyed() && IsHeap(keys, |keys|)
    }

    method Swap(i: nat, j: nat)
      requires i < |data| && j < |data| && Keyed()
      modifies this
      ensures Keyed() && keys == Swapped(old(keys), i, j) && Members(data) == old(Members(data))
      ensures |data| == |old(data)|
    {
      SwapMembers(data, i, j);
      data := data[i := data[j]][j := data[i]];
      keys := Swapped(keys, i, j);
    }

    /** _bubbleUp */
    method BubbleUp(start: nat)
      requires start < |data| && Keyed() && HoleAt(keys, |keys|, start)
      modifies this
      ensures Keyed() && Members(data) == old(Members(data)) && |data| == |old(data)|
      ensures !BelowParent(old(keys), |keys|, start) || AboveChildren(old(keys), |keys|, start) ==> Ordered()
      ensures BelowParent(old(keys), |keys|, start) ==> keys == old(keys)
    {
      ghost var before, n := keys, |data|;
      if !BelowParent(keys, n, start) {
        BridgedAbove(keys, n, start);
      }
      var index: nat := start;
      while index > 0
        invariant index <= start < |data| == n && Keyed() && Members(data) == old(Members(data))
        invariant if index == start then keys == before else !BelowParent(before, n, start)
        invariant AboveChildren(before, n, start) ==> HoleAt(keys, n, index) && AboveChildren(keys, n, index)
      {
        var parent: nat := (index - 1) / 2;
        if data[index].triggerAt - data[parent].triggerAt >= 0 {
          break;
        }
        if AboveChildren(before, n, start) {
          SwapUp(keys, n, index);
        }
        Swap(index, parent);
        index := parent;
      }
      if AboveChildren(before, n, start) {
        HoleFilled(keys, n, index);
      }
    }

    /** The smallest of a slot and its children. */
    method PickSmallest(index: nat) returns (smallest: nat)
      requires index < |data| && Keyed()
      ensures smallest == index || (SmallestChild(keys, |keys|, index, smallest) && keys[smallest] < keys[index])
      ensures smallest == index ==>
        && (2 * index + 1 < |keys| ==> keys[index] <= keys[2 * index + 1])
        && (2 * index + 2 < |keys| ==> keys[index] <= keys[2 * index + 2])
    {
      smallest := index;
      var left, right := 2 * index + 1, 2 * index + 2;
      if left < |data| && data[left].triggerAt - data[smallest].triggerAt < 0 {
        smallest := left;
      }
      if right < |data| && data[right].triggerAt - data[smallest].triggerAt < 0 {
        smallest := right;
      }
    }

    /** _bubbleDown */
    method BubbleDown(start: nat)
      requires start < |data| && Keyed() && HoleAt(keys, |keys|, start) && BelowParent(keys, |keys|, start)
      modifies this
      ensures Ordered() && Members(data) == old(Members(data)) && |data| == |old(data)|
    {
      ghost var n := |data|;
      var index := start;
      while true
        invariant index < |data| == n && Keyed() && Members(data) == old(Members(data))
        invariant HoleAt(keys, n, index) && BelowParent(keys, n, index)
        decreases n - index
      {
        var smallest := PickSmallest(index);
        if smallest == index {
          DoneSifting(keys, n, index);
          break;
        }
        SwapDown(keys, n, index, smallest);
        Swap(index, smallest);
        index := smallest;
      }
    }

    method Add(t: Timer)
      requires Ordered() && t !in data
      modifies this
      ensures Ordered() && Members(data) == old(Members(data)) + {t}
    {
      AppendMakesHole(keys, t.triggerAt);
      ghost var before := data;
      data, keys := data + [t], keys + [t.triggerAt];
      MembersAppend(before, t);
      BubbleUp(|data| - 1);
    }

    lemma {:induction false} FirstIsEarliest()
      requires Ordered() && data != []
      ensures forall t :: t in data ==> data[0].triggerAt <= t.triggerAt
    {
      forall t | t in data ensures data[0].triggerAt <= t.triggerAt {
        var k :| 0 <= k < |data| && data[k] == t;
        RootIsLeast(keys, |keys|, k);
      }
    }

    /** The last item takes the place of the item in slot i, which leaves. */
    method Replace(i: nat)
      requires Ordered() && i < |data| - 1
      modifies this
      ensures Keyed() && |data| == |old(data)| - 1 && HoleAt(keys, |keys|, i)
      ensures Members(data) == old(Members(data)) - {old(data[i])}
    {
      var n := |data| - 1;
      ghost var before, beforeKeys := data, keys;
      data := data[..n][i := data[n]];
      keys := keys[..n][i := keys[n]];
      MembersReplace(before, i);
      ReplaceMakesHole(beforeKeys, beforeKeys[i := beforeKeys[n]], n, i);
      HolePrefix(beforeKeys[i := beforeKeys[n]], n, i);
      assert keys == beforeKeys[i := beforeKeys[n]][..n];
    }

    method Pop() returns (t: Timer)
      requires Ordered() && data != []
      modifies this
      ensures t == old(data[0]) && Ordered() && Members(data) == old(Members(data)) - {t}
    {
      t := data[0];
      if |data| == 1 {
        data, keys := [], [];
        return;
      }
      Replace(0);
      BubbleDown(0);
    }

    /** Takes out the first item of which p holds; p may look at the item. */
    method Remove(p: Timer ~> bool) returns (found: bool)
      requires Ordered() && forall t :: t in data ==> p.requires(t)
      modifies this
      ensures Ordered()
      ensures !found ==> data == old(data) && forall i :: 0 <= i < |data| ==> !old(p(data[i]))
      ensures found ==>
        exists i: nat :: old(FirstMatch(data, p, i)) && Members(data) == old(Members(data)) - {old(data)[i]}
    {
      var idx := 0;
      while idx < |data| && !p(data[idx])
        invariant idx <= |data| && forall j :: 0 <= j < idx ==> !p(data[j])
      {
        idx := idx + 1;
      }
      if idx == |data| {
        return false;
      }
      ghost var before := data;
      assert old(FirstMatch(data, p, idx));
      if idx == |data| - 1 {
        MembersLast(data);
        PrefixIsHeap(keys, idx);
        data, keys := data[..idx], keys[..idx];
      } else {
        Replace(idx);
        ghost var swapped := keys;
        BubbleUp(idx);
        if !BelowParent(swapped, |swapped|, idx) {
          HeapIsHole(keys, |keys|, idx);
        }
        BubbleDown(idx);
      }
      assert Members(data) == Members(before) - {before[idx]};
      return true;
    }
  }

  lemma {:induction false} BridgedAbove(ks: seq<int>, n: nat, i: nat)
    requires i < n <= |ks| && HoleAt(ks, n, i) && !BelowParent(ks, n, i)
    ensures AboveChildren(ks, n, i)
  {
    forall c | 0 < c < n && Parent(c) == i ensures Below(ks, c) {
      assert Bridges(ks, i, c);
    }
  }

  lemma {:induction false} HeapIsHole(ks: seq<int>, n: nat, i: nat)
    requires i < n <= |ks| && IsHeap(ks, n)
    ensures HoleAt(ks, n, i) && BelowParent(ks, n, i)
  {
    forall c | i < c < n && Parent(c) == i ensures 0 < i ==> Bridges(ks, i, c) {
      assert Below(ks, c);
      if 0 < i { assert Below(ks, i); }
    }
  }

  lemma {:induction false} HolePrefix(ks: seq<int>, n: nat, i: nat)
    requires i < n <= |ks| && HoleAt(ks, n, i)
    ensures HoleAt(ks[..n], n, i)
  {
    forall c | 0 < c < n && c != i && Parent(c) != i ensures Below(ks[..n], c) {
      assert Below(ks, c);
    }
    if 0 < i {
      forall c | i < c < n && Parent(c) == i ensures Bridges(ks[..n], i, c) {
        assert Bridges(ks, i, c);
      }
    }
  }

  lemma MembersAppend<T>(s: seq<T>, x: T)
    ensures Members(s + [x]) == Members(s) + {x}
  {
  }

  lemma {:induction false} MembersLast<T>(s: seq<T>)
    requires s != [] && Distinct(s)
    ensures Members(s[..|s| - 1]) == Members(s) - {s[|s| - 1]}
  {
    assert s == s[..|s| - 1] + [s[|s| - 1]];
  }

  lemma {:induction false} MembersReplace<T>(s: seq<T>, i: nat)
    requires i < |s| - 1 && Distinct(s)
    ensures Members(s[..|s| - 1][i := s[|s| - 1]]) == Members(s) - {s[i]}
  {
    var s' := s[..|s| - 1][i := s[|s| - 1]];
    forall x | x in s && x != s[i] ensures x in s' {
      var k :| 0 <= k < |s| && s[k] == x;
      assert s'[if k == |s| - 1 then i else k] == x;
    }
    forall x | x in s' ensures x in s && x != s[i] {
      var k :| 0 <= k < |s'| && s'[k] == x;
      assert s[if k == i then |s| - 1 else k] == x;
    }
  }

  /** m is exactly the timers of s by their number. */
  ghost predicate MapOf(m: map<nat, Timer>, s: set<Timer>) {
    && (forall id {:trigger id in m} :: id in m ==> m[id] in s && m[id].id == id)
    && (forall t {:trigger t in s} :: t in s ==> t.id in m && m[t.id] == t)
  }

  lemma MapAdd(m: map<nat, Timer>, s: set<Timer>, t: Timer)
    requires MapOf(m, s) && t.id !in m
    ensures MapOf(m[t.id := t], s + {t})
  {
  }

  lemma MapDrop(m: map<nat, Timer>, s: set<Timer>, id: nat)
    requires MapOf(m, s) && id in m
    ensures MapOf(m - {id}, s - {m[id]})
  {
  }

  /** dues tells by number when each timer of s is due. */
  ghost predicate DueTimes(s: set<Timer>, dues: map<nat, int>)
    reads s`triggerAt
  {
    forall t {:trigger t in s} :: t in s ==> t.id in dues && dues[t.id] == t.triggerAt
  }

  class TimerPhase {
    const timers: MinHeap
    var timerMap: map<nat, Timer>
    var timerId: nat
    ghost var firing: Timer?  // the timer taken and not re-armed or let go yet

    ghost var live: set<Timer>     // the timers that are queued and not cleared
    ghost var dues: map<nat, int>  // when they are due
    ghost var cleared: set<Timer>  // the timers cleared while they were queued
    ghost var fired: seq<Firing<nat, Timer>>

    /** The map is exactly the live timers by their number. */
    ghost predicate QueueOk()
      reads this`timerMap, this`live, this`dues, timers, timers.data`cancelled, timers.data`triggerAt, live`triggerAt
    {
      && timers.Ordered()
      && live == (set t | t in Members(timers.data) && !t.cancelled)
      && MapOf(timerMap, live) && DueTimes(live, dues) && dues.Keys == timerMap.Keys
    }

    /** What fires, and what was cleared, is not among them. */
    ghost predicate OthersOk()
      reads this, timers, firing
    {
      && (forall id :: id in timerMap ==> id <= timerId)
      && (firing != null ==>
            firing !in Members(timers.data) && firing.id !in timerMap && firing.id <= timerId && !firing.cancelled)
      && cleared !! live && firing !in cleared
    }

    ghost predicate Valid()
      reads this, timers, timers.data`cancelled, timers.data`triggerAt, live`triggerAt, firing
    {
      QueueOk() && OthersOk()
    }

    ghost function Past(): History<nat, Timer>
      reads this
    {
      History(timerMap, dues, cleared, fired)
    }

    constructor ()
      ensures Valid() && timers.data == [] && Past() == History(map[], map[], {}, []) && firing == null
      ensures timerId == 0 && fresh(timers)
    {
      timers := new MinHeap();
      timerMap, timerId, firing, live, dues, cleared, fired := map[], 0, null, {}, map[], {}, [];
    }

    // ----- the heap and the map -----

    method Insert(t: Timer)
      requires QueueOk() && t.id !in timerMap && t !in timers.data && !t.cancelled
      modifies this`timerMap, this`live, this`dues, timers
      ensures QueueOk() && timerMap == old(timerMap)[t.id := t] && dues == old(dues)[t.id := t.triggerAt]
      ensures live == old(live) + {t} && Members(timers.data) == old(Members(timers.data)) + {t}
    {
      timers.Add(t);
      MapAdd(timerMap, live, t);
      timerMap, live, dues := timerMap[t.id := t], live + {t}, dues[t.id := t.triggerAt];
    }

    /** The timer stays in the heap until it is at its top. */
    method Delete(id: nat)
      requires QueueOk() && id in timerMap
      modifies this`timerMap, this`live, this`dues, {timerMap[id]}`cancelled
      ensures QueueOk() && timerMap == old(timerMap) - {id} && dues == old(dues) - {id}
      ensures live == old(live) - {old(timerMap)[id]} && old(timerMap)[id].cancelled
    {
      var timer := timerMap[id];
      MapDrop(timerMap, live, id);
      assert timer in Members(timers.data);
      timer.cancelled := true;
      timerMap, live, dues := timerMap - {id}, live - {timer}, dues - {id};
    }

    method DeleteFirst() returns (t: Timer)
      requires QueueOk() && timers.data != [] && timers.data[0] in live
      modifies this`timerMap, this`live, this`dues, timers
      ensures QueueOk() && t == old(timers.data[0]) && t.id in old(timerMap) && old(timerMap)[t.id] == t
      ensures timerMap == old(timerMap) - {t.id} && dues == old(dues) - {t.id} && live == old(live) - {t}
      ensures Members(timers.data) == old(Members(timers.data)) - {t}
    {
      t := timers.data[0];
      MapDrop(timerMap, live, t.id);
      var first := timers.Pop();
      timerMap, live, dues := timerMap - {t.id}, live - {t}, dues - {t.id};
    }

    // ----- the calls -----

    /** setTimeout and setInterval */
    method SetTimer(now: int, delay: int, recurring: bool) returns (t: Timer)
      requires Valid()
      modifies this`timerMap, this`timerId, this`live, this`dues, timers
      ensures Valid() && t.id !in old(timerMap) && Past() == Entered(old(Past()), t.id, t, t.triggerAt)
      ensures fresh(t) && t.id == timerId == old(timerId) + 1 && !t.cancelled && t.recurring == recurring
      ensures t.triggerAt == now + (if delay > 0 then delay else 0)
      ensures t.interval == if recurring && delay > 0 then delay else 0
      ensures live == old(live) + {t} && Members(timers.data) == old(Members(timers.data)) + {t}
    {
      timerId := timerId + 1;
      t := new Timer(timerId, now + Wait(delay), recurring, if recurring then Wait(delay) else 0);
      EnteredFree(Past(), timerId, t, t.triggerAt);
      Insert(t);
    }

    /** clearTimeout and clearInterval */
    method ClearTimeout(id: nat)
      requires Valid()
      modifies this`timerMap, this`live, this`dues, this`cleared, timers.data`cancelled
      ensures Valid() && Past() == Removed(old(Past()), id) && (id !in old(timerMap) ==> Past() == old(Past()))
      ensures live == old(live) - (if id in old(timerMap) then {old(timerMap)[id]} else {})
      ensures forall t :: t in live ==> t.id != id
      ensures forall t :: t in timers.data && t.cancelled ==> old(t.cancelled) || t.id == id
      ensures forall t :: t in timers.data && old(t.cancelled) ==> t.cancelled
    {
      if id in timerMap {
        var timer := timerMap[id];
        assert timer in live && timer in timers.data;
        Delete(id);
        cleared := cleared + {timer};
      } else {
        assert timerMap - {id} == timerMap && dues - {id} == dues;
      }
    }

    /** The loop of _runTimers up to the call of a timer's callback: timers that were cleared are thrown
        away, and the first other one is taken when it is due. */
    method TakeDue(now: int) returns (due: Timer?)
      requires Valid() && firing == null
      modifies this`timerMap, this`firing, this`live, this`dues, this`fired, timers
      ensures Valid() && firing == due && Members(timers.data) <= old(Members(timers.data))
      ensures due == null ==> Past() == old(Past()) && live == old(live) && forall t :: t in live ==> t.triggerAt > now
      ensures due != null ==>
        && due in old(live) && due.triggerAt <= now
        && (forall t :: t in old(live) ==> due.triggerAt <= t.triggerAt)
        && live == old(live) - {due} && Takes(old(Past()), Past(), now, due)
    {
      due := null;
      ghost var left := Members(timers.data);
      while timers.data != []
        invariant Valid() && firing == null && live == old(live) && Past() == old(Past())
        invariant left == Members(timers.data) <= old(Members(timers.data)) && due == null
        decreases left
      {
        var timer := timers.data[0];
        assert timer in left;
        timers.FirstIsEarliest();
        if timer.cancelled {
          var _ := timers.Pop();
          left := left - {timer};
          continue;
        }
        assert timer in live;
        if timer.triggerAt > now {
          break;
        }
        due := timer;
        Take(now);
        return;
      }
    }

    lemma {:induction false} FirstIsLive()
      requires QueueOk() && timers.data != [] && timers.data[0] in live
      ensures IsFirst(Past(), timers.data[0].id) && timerMap[timers.data[0].id] == timers.data[0]
      ensures dues[timers.data[0].id] == timers.data[0].triggerAt
    {
      timers.FirstIsEarliest();
      forall id | id in dues ensures dues[timers.data[0].id] <= dues[id] {
        assert timerMap[id] in live && timerMap[id] in Members(timers.data);
      }
    }

    /** The first timer, which is live and due, is taken out of heap and map. */
    method Take(now: int)
      requires Valid() && firing == null && timers.data != [] && timers.data[0] in live
      requires timers.data[0].triggerAt <= now
      modifies this`timerMap, this`firing, this`live, this`dues, this`fired, timers
      ensures Valid() && firing == old(timers.data[0]) && Takes(old(Past()), Past(), now, firing)
      ensures Members(timers.data) <= old(Members(timers.data)) && live == old(live) - {firing}
    {
      ghost var past := Past();
      FirstIsLive();
      var timer := DeleteFirst();
      firing := timer;
      fired := fired + [Firing(timer, timer.triggerAt, now, past.dues)];
    }

    /** After the callback: a recurring timer that is not cleared goes back, due after its interval. */
    method Rearm(t: Timer, now: int)
      requires Valid() && firing == t
      modifies this`timerMap, this`firing, this`live, this`dues, timers, t`triggerAt
      ensures Valid() && firing == null && Members(timers.data) <= old(Members(timers.data)) + {t}
      ensures if t.recurring && !t.cancelled then live == old(live) + {t} && t.triggerAt == now + t.interval
              else live == old(live) && t.triggerAt == old(t.triggerAt)
      ensures Past() == AfterCallback(old(Past()), t, now)
    {
      firing := null;
      if t.recurring && !t.cancelled {
        t.triggerAt := now + t.interval;
        EnteredFree(Past(), t.id, t, t.triggerAt);
        Insert(t);
      }
    }

    // ----- any events in any order -----

    ghost function Known(): set<Timer>
      reads this, timers
    {
      Members(timers.data) + if firing == null then {} else {firing}
    }

    /** A timer is due exactly when a live one is. */
    lemma {:induction false} DueExactly(now: int)
      requires Valid()
      ensures AnyDue(Past(), now) <==> exists t :: t in live && t.triggerAt <= now
    {
      if AnyDue(Past(), now) {
        var id :| id in dues && dues[id] <= now;
        assert timerMap[id] in live;
      }
    }

    /** current is the timer whose callback runs, and known the timers there are. */
    method React(e: Event, current: Timer?, ghost known: set<Timer>) returns (next: Timer?, ghost known': set<Timer>)
      requires Valid() && firing == current && Known() <= known
      modifies this, timers, known
      ensures Valid() && firing == next && Known() <= known' && fresh(known' - known)
      ensures timerId == old(timerId) + if e.Set? then 1 else 0
      ensures Follows(old(Past()), Past()) && Happens(e, old(timerId), old(Past()), Past(), current, next)
    {
      next, known' := current, known;
      ghost var past := Past();
      match e
      case Set(now, delay, recurring) =>
        var t := SetTimer(now, delay, recurring);
        known' := known + {t};
        EnteredFollows(past, t.id, t, t.triggerAt);
      case Clear(id) =>
        ClearTimeout(id);
        RemovedFollows(past, id);
      case Take(now) =>
        if current == null {
          DueExactly(now);
          next := TakeDue(now);
          if next != null { StartFollows(past, next.id, now); }
        }
      case Rearm(now) =>
        if current != null {
          EnteredFollows(past, current.id, current, now + current.interval);
          Rearm(current, now);
          next := null;
        }
    }
  }

  /** A negative delay counts as none. */
  function Wait(delay: int): nat {
    if delay > 0 then delay else 0
  }

  /** A live timer, due and the earliest, is taken to be fired. */
  ghost predicate Takes(h: History<nat, Timer>, h': History<nat, Timer>, now: int, t: Timer) {
    IsFirst(h, t.id) && h.queue[t.id] == t && t !in h.removed && h.dues[t.id] <= now && h' == Started(h, t.id, now)
  }

  /** A recurring timer goes back after its callback. */
  function AfterCallback(h: History<nat, Timer>, t: Timer, now: int): History<nat, Timer> {
    if t.recurring then Entered(h, t.id, t, now + t.interval) else h
  }

  /** What happens to the timers: a call from a callback or from elsewhere, or a half of a turn of _runTimers. */
  datatype Event = Set(now: int, delay: int, recurring: bool) | Clear(id: nat) | Take(now: int) | Rearm(now: int)

  /** What an event does to the queue and to the timer whose callback runs; last is the number given last.
      Clearing a number that is not queued has no effect. */
  ghost predicate Happens(e: Event, last: nat, h: History<nat, Timer>, h': History<nat, Timer>,
                          current: Timer?, next: Timer?)
  {
    match e
    case Set(now, delay, recurring) =>
      && next == current && last + 1 !in h.queue && last + 1 in h'.queue
      && h'.queue[last + 1].id == last + 1 && h'.queue[last + 1].recurring == recurring
      && h'.queue[last + 1].interval == (if recurring then Wait(delay) else 0)
      && h' == Entered(h, last + 1, h'.queue[last + 1], now + Wait(delay))
    case Clear(id) => next == current && h' == Removed(h, id)
    case Take(now) =>
      if current == null && AnyDue(h, now) then next != null && Takes(h, h', now, next) else next == current && h' == h
    case Rearm(now) => next == null && h' == if current == null then h else AfterCallback(h, current, now)
  }

  /** The number given last by the first n events. */
  function LastId(events: seq<Event>, n: nat): nat
    requires n <= |events|
  {
    if n == 0 then 0 else LastId(events, n - 1) + if events[n - 1].Set? then 1 else 0
  }

  /** run is the history of the queue, and callbacks the timer whose callback runs, before each of the first n
      events and after the last of them. */
  ghost predicate Told(events: seq<Event>, n: nat, run: seq<History<nat, Timer>>, callbacks: seq<Timer?>) {
    && n <= |events| && |run| == |callbacks| == n + 1
    && run[0] == History(map[], map[], {}, []) && callbacks[0] == null && IsRun(run)
    && (forall m {:trigger events[m]} :: 0 <= m < n ==>
          Happens(events[m], LastId(events, m), run[m], run[m + 1], callbacks[m], callbacks[m + 1]))
  }

  lemma {:induction false} ToldGrows(events: seq<Event>, n: nat, run: seq<History<nat, Timer>>, callbacks: seq<Timer?>,
                                     h: History<nat, Timer>, t: Timer?)
    requires n < |events| && Told(events, n, run, callbacks) && Follows(run[n], h)
    requires Happens(events[n], LastId(events, n), run[n], h, callbacks[n], t)
    ensures Told(events, n + 1, run + [h], callbacks + [t])
  {
    var run', callbacks' := run + [h], callbacks + [t];
    forall m | 0 <= m < n + 1
      ensures Happens(events[m], LastId(events, m), run'[m], run'[m + 1], callbacks'[m], callbacks'[m + 1])
    {
      if m < n {
        assert events[m] == events[m] && run'[m] == run[m] && run'[m + 1] == run[m + 1];
      }
    }
  }

  /** From the start, for any events in any order: a timer cleared while it was queued is never fired; and a timer
      is fired exactly when _runTimers looks at the queue with one due, the earliest first. */
  method Play(events: seq<Event>)
      returns (loop: TimerPhase, ghost run: seq<History<nat, Timer>>, ghost callbacks: seq<Timer?>)
    ensures loop.Valid() && Told(events, |events|, run, callbacks) && Orderly(run)
    ensures run[|events|] == loop.Past() && callbacks[|events|] == loop.firing
  {
    loop := new TimerPhase();
    var current: Timer? := null;
    ghost var known: set<Timer> := {};
    run, callbacks := [loop.Past()], [null];
    for n := 0 to |events|
      invariant fresh(loop) && fresh(loop.timers) && fresh(known)
      invariant loop.Valid() && loop.firing == current && loop.Known() <= known
      invariant Told(events, n, run, callbacks) && run[n] == loop.Past() && callbacks[n] == current
      invariant loop.timerId == LastId(events, n)
    {
      current, known := loop.React(events[n], current, known);
      ToldGrows(events, n, run, callbacks, loop.Past(), current);
      run, callbacks := run + [loop.Past()], callbacks + [current];
    }
    RunsAreOrderly(run);
  }

  /** clearInterval in the interval's own callback has no effect: the timer goes back. */
  method ClearInOwnCallback(loop: TimerPhase, t: Timer, now: int)
    requires loop.Valid() && loop.firing == t && t.recurring
    modifies loop, loop.timers, loop.timers.data`cancelled, t`triggerAt
    ensures loop.Valid() && t in loop.live && t !in loop.cleared && t.triggerAt == now + t.interval
  {
    loop.ClearTimeout(t.id);
    loop.Rearm(t, now);
  }

  /** An interval whose callback runs. */
  method FireOne(interval: nat) returns (loop: TimerPhase, t: Timer)
    ensures fresh(loop) && fresh(loop.timers) && fresh(t) && loop.Valid() && loop.firing == t && t.recurring
    ensures fresh(loop.timers.data) && t.interval == interval
  {
    loop := new TimerPhase();
    t := loop.SetTimer(0, interval, true);
    assert t in loop.live;
    var due := loop.TakeDue(interval);
  }

  /** So it happens in a run from the start. */
  method ClearedButQueuedAgain(interval: nat) returns (loop: TimerPhase, t: Timer)
    ensures loop.Valid() && t in loop.live && t !in loop.cleared && t.triggerAt == 2 * interval
  {
    loop, t := FireOne(interval);
    ClearInOwnCallback(loop, t, interval);
  }
}
