/**
 The timer scheduler of language/go/mini-runtime/mini_scheduler/scheduler.go: a binary heap of tasks
 ordered by their next run, with each task's slot stored in the task, and a map from ID to task.

 The methods Up, Down, HeapPush, HeapPop and HeapRemove are those of Go's container/heap, which the
 scheduler calls and which is not in the repository.  Each Handle method is one branch of the loop's
 select; between two of them the loop arms the timer.  Times are integers.
*/
module MiniScheduler {
  import opened Firings
  import opened HeapOrder
  import opened Sequences

  class Task {
    const id: string
    const interval: int
    var next: int
    var cancelled: bool
    var index: int

    constructor (id: string, next: int, interval: int)
      ensures this.id == id && this.next == next && this.interval == interval && !cancelled
    {
      this.id, this.next, this.interval, this.cancelled, this.index := id, next, interval, false, 0;
    }
  }

  class TaskHeap {
    var items: seq<Task>
    ghost var keys: seq<int>  // the Next times, slot by slot

    constructor ()
      ensures items == [] && Ordered()
    {
      items, keys := [], [];
    }

    /** Every task's stored index is its slot. */
    ghost predicate Indexed()
      reads this, Members(items)`index, Members(items)`next
    {
      |keys| == |items| && forall i :: 0 <= i < |items| ==> items[i].index == i && items[i].next == keys[i]
    }

    ghost predicate Ordered()
      reads this, Members(items)`index, Members(items)`next
    {
      Indexed() && IsHeap(keys, |keys|)
    }

    method Swap(i: nat, j: nat)
      requires i < |items| && j < |items| && Indexed()
      modifies this, Members(items)`index
      ensures items == Swapped(old(items), i, j) && keys == Swapped(old(keys), i, j) && Indexed()
      ensures Members(items) == old(Members(items))
    {
      SwapMembers(items, i, j);
      items := items[i := items[j]][j := items[i]];
      keys := Swapped(keys, i, j);
      items[i].index := i;
      items[j].index := j;
    }

    /** Sifts up within the first n slots. */
    method Up(start: nat, ghost n: nat)
      requires start < n <= |items| && Indexed() && HoleAt(keys, n, start) && AboveChildren(keys, n, start)
      modifies this, Members(items)`index
      ensures Indexed() && |items| == |old(items)| && Members(items) == old(Members(items))
      ensures n < |items| ==> items[n] == old(items[n])
      ensures IsHeap(keys, n)
    {
      var j: nat := start;
      while true
        invariant j < n <= |items| == |old(items)| && Indexed() && Members(items) == old(Members(items))
        invariant n < |items| ==> items[n] == old(items[n])
        invariant HoleAt(keys, n, j) && AboveChildren(keys, n, j)
        decreases j
      {
        var i: nat := if j == 0 then 0 else (j - 1) / 2;
        if i == j || items[j].next >= items[i].next {
          HoleFilled(keys, n, j);
          break;
        }
        SwapUp(keys, n, j);
        Swap(j, i);
        j := i;
      }
    }

    method PickChild(i: nat, n: nat) returns (j: nat)
      requires 2 * i + 1 < n <= |items| && Indexed()
      ensures SmallestChild(keys, n, i, j)
    {
      j := 2 * i + 1;
      if j + 1 < n && items[j + 1].next < items[j].next {
        j := j + 1;
      }
    }

    /** Sifts down within the first n slots; moved tells whether anything happened. */
    method Down(start: nat, n: nat) returns (moved: bool)
      requires start < n <= |items| && Indexed() && HoleAt(keys, n, start)
      modifies this, Members(items)`index
      ensures Indexed() && |items| == |old(items)| && Members(items) == old(Members(items))
      ensures n < |items| ==> items[n] == old(items[n])
      ensures !moved ==> keys == old(keys) && AboveChildren(keys, n, start)
      ensures moved || BelowParent(old(keys), n, start) ==> IsHeap(keys, n)
    {
      var i := start;
      while 2 * i + 1 < n
        invariant start <= i < n <= |items| == |old(items)| && Indexed() && Members(items) == old(Members(items))
        invariant n < |items| ==> items[n] == old(items[n])
        invariant HoleAt(keys, n, i)
        invariant if i == start then keys == old(keys) else BelowParent(keys, n, i)
        decreases n - i
      {
        var j := PickChild(i, n);
        if items[j].next >= items[i].next {
          break;
        }
        SwapDown(keys, n, i, j);
        Swap(i, j);
        i := j;
      }
      DoneSifting(keys, n, i);
      moved := i > start;
    }

    lemma {:induction false} FirstIsEarliest()
      requires Ordered()
      ensures forall t :: t in Members(items) ==> items[0].next <= t.next
    {
      forall t | t in Members(items) ensures items[0].next <= t.next {
        var k :| 0 <= k < |items| && items[k] == t;
        RootIsLeast(keys, |keys|, k);
      }
    }

    /** heap.Push */
    method HeapPush(t: Task)
      requires Ordered() && t !in items
      modifies this, t`index, Members(items)`index
      ensures Ordered() && Members(items) == old(Members(items)) + {t}
    {
      AppendMakesHole(keys, t.next);
      t.index := |items|;
      items, keys := items + [t], keys + [t.next];
      Up(|items| - 1, |items|);
    }

    /** The last slot goes; its task is told that it has none. */
    method Drop() returns (t: Task)
      requires Indexed() && items != [] && IsHeap(keys, |keys| - 1)
      modifies this, Members(items)`index
      ensures t == old(items[|items| - 1]) && t.index == -1
      ensures Ordered() && Members(items) == old(Members(items)) - {t}
    {
      var n := |items| - 1;
      t := items[n];
      PrefixIsHeap(keys, n);
      ghost var before := items;
      forall k | 0 <= k < n ensures items[k] != t {}
      t.index := -1;
      items, keys := items[..n], keys[..n];
      assert before == items + [t];
    }

    /** heap.Pop */
    method HeapPop() returns (t: Task)
      requires Ordered() && items != []
      modifies this, Members(items)`index
      ensures t == old(items[0]) && t.index == -1
      ensures Ordered() && Members(items) == old(Members(items)) - {t}
    {
      var n := |items| - 1;
      ghost var before := keys;
      Swap(0, n);
      ReplaceMakesHole(before, keys, n, 0);
      if n > 0 {
        var moved := Down(0, n);
      }
      t := Drop();
    }

    /** heap.Remove */
    method HeapRemove(i: nat) returns (t: Task)
      requires Ordered() && i < |items|
      modifies this, Members(items)`index
      ensures t == old(items[i]) && t.index == -1
      ensures Ordered() && Members(items) == old(Members(items)) - {t}
    {
      var n := |items| - 1;
      if n != i {
        ghost var before := keys;
        Swap(i, n);
        ReplaceMakesHole(before, keys, n, i);
        var moved := Down(i, n);
        if !moved {
          Up(i, n);
        }
      }
      t := Drop();
    }
  }

  /** m is exactly the tasks of s keyed by ID. */
  ghost predicate Keyed(m: map<string, Task>, s: set<Task>) {
    && (forall id {:trigger id in m} :: id in m ==> m[id] in s && m[id].id == id)
    && (forall t {:trigger t in s} :: t in s ==> t.id in m && m[t.id] == t)
  }

  /** dues tells by ID when each task of s is due. */
  ghost predicate DueTimes(s: set<Task>, dues: map<string, int>)
    reads s`next
  {
    forall t {:trigger t in s} :: t in s ==> t.id in dues && dues[t.id] == t.next
  }

  ghost predicate Uncancelled(s: set<Task>)
    reads s`cancelled
  {
    forall t {:trigger t in s} :: t in s ==> !t.cancelled
  }

  /** A task on its way to the loop, and when it is due. */
  datatype Pending = Pending(item: Task, due: int)

  ghost predicate Lists(w: seq<Pending>, ch: seq<Task>)
    reads ch`next
  {
    |w| == |ch| && forall i {:trigger w[i]} :: 0 <= i < |ch| ==> w[i] == Pending(ch[i], ch[i].next)
  }

  /** What the loop does not hold: the tasks handed over and not received, and those running. */
  datatype Outside = Outside(handed: seq<Pending>, going: seq<Task>)

  /** A task's goroutine ends: a periodic task is handed over again, due one interval later. */
  function AfterReturn(o: Outside, i: nat, now: int): Outside {
    if i >= |o.going| then o
    else
      var t := o.going[i];
      Outside(if t.interval > 0 then o.handed + [Pending(t, now + t.interval)] else o.handed,
              o.going[..i] + o.going[i + 1..])
  }

  /** The first task handed over is queued. */
  ghost predicate Received(h: History<string, Task>, h': History<string, Task>, w: seq<Pending>, w': seq<Pending>) {
    w != [] && w' == w[1..] && h' == Entered(h, w[0].item.id, w[0].item, w[0].due)
  }

  lemma ReceivedFirst(h: History<string, Task>, w: seq<Pending>, w': seq<Pending>, p: Pending)
    requires w == [p] + w'
    ensures Received(h, Entered(h, p.item.id, p.item, p.due), w, w')
  {
  }

  lemma {:induction false} ReceivedFollows(h: History<string, Task>, h': History<string, Task>,
                                           w: seq<Pending>, w': seq<Pending>)
    requires Received(h, h', w, w')
    ensures Follows(h, h')
  {
    EnteredFollows(h, w[0].item.id, w[0].item, w[0].due);
  }

  /** What an event does to the queue and outside it.  A cancellation of an ID that is not queued has no effect. */
  ghost predicate Happens(e: Event, h: History<string, Task>, h': History<string, Task>, o: Outside, o': Outside) {
    match e
    case Schedule(id, next, interval) =>
      h' == h && o'.going == o.going && HandsOver(o.handed, o'.handed, id, next, interval)
    case Return(i, now) => h' == h && o' == AfterReturn(o, i, now)
    case Add(_) =>
      o'.going == o.going && if o.handed == [] then h' == h && o' == o else Received(h, h', o.handed, o'.handed)
    case Cancel(id, _) => h' == Removed(h, id) && o' == o
    case Tick(at, _) => if h' == h then o' == o else StartsOne(h, h', at, o, o')
  }

  /** The earliest task, which is due, is started. */
  ghost predicate StartsOne(h: History<string, Task>, h': History<string, Task>, at: int, o: Outside, o': Outside) {
    && Fires(h, h', at) && h'.fired != []
    && o' == o.(going := o.going + [h'.fired[|h'.fired| - 1].item])
  }

  /** A new task is handed over. */
  ghost predicate HandsOver(w: seq<Pending>, w': seq<Pending>, id: string, next: int, interval: int) {
    |w'| == |w| + 1 && w'[..|w|] == w && Fresh(w'[|w|], id, next, interval)
  }

  ghost predicate Fresh(p: Pending, id: string, next: int, interval: int) {
    p.item.id == id && p.item.interval == interval && p.due == next
  }

  /** What happens to a scheduler: a call of schedule, the end of a task's goroutine, or a branch of the select.
      now is the clock at its end, at that when the timer is looked at. */
  datatype Event =
    | Schedule(id: string, next: int, interval: int)
    | Return(i: nat, now: int)
    | Add(now: int)
    | Cancel(id: string, now: int)
    | Tick(at: int, now: int)

  /** The clock after the first n events. */
  function Clock(events: seq<Event>, n: nat, start: int): int
    requires n <= |events|
  {
    if n == 0 then start
    else if events[n - 1].Schedule? then Clock(events, n - 1, start) else events[n - 1].now
  }

  /** The clock does not go back. */
  predicate InOrder(events: seq<Event>, n: nat, start: int)
    requires n <= |events|
  {
    n == 0 ||
    (InOrder(events, n - 1, start) &&
      match events[n - 1]
      case Schedule(_, _, _) => true
      case Tick(at, now) => Clock(events, n - 1, start) <= at <= now
      case e => Clock(events, n - 1, start) <= e.now)
  }

  /** While the clock does not go back, looking at the timer starts a task exactly when one is due. */
  ghost predicate Prompt(events: seq<Event>, n: nat, start: int, h: History<string, Task>, h': History<string, Task>)
    requires n < |events|
  {
    events[n].Tick? && InOrder(events, n + 1, start) ==>
      if AnyDue(h, events[n].at) then Fires(h, h', events[n].at) else h' == h
  }

  /** So it is when a task due is started whenever the timer was set, at armed, before it is looked at. */
  lemma {:induction false} ArmedIsPrompt(events: seq<Event>, n: nat, start: int, armed: int, h: History<string, Task>,
                                         h': History<string, Task>, o: Outside, o': Outside)
    requires n < |events| && Happens(events[n], h, h', o, o')
    requires InOrder(events, n, start) ==> armed <= Clock(events, n, start)
    requires events[n].Tick? && armed <= events[n].at && AnyDue(h, events[n].at) ==> Fires(h, h', events[n].at)
    ensures Prompt(events, n, start, h, h')
    ensures InOrder(events, n + 1, start) ==> armed <= Clock(events, n + 1, start)
  {
  }

  /** run is the history of the queue, and around what is outside it, before each of the first n events and after
      the last of them. */
  ghost predicate Told(events: seq<Event>, n: nat, start: int,
                       run: seq<History<string, Task>>, around: seq<Outside>)
  {
    && n <= |events| && |run| == |around| == n + 1
    && run[0] == History(map[], map[], {}, []) && around[0] == Outside([], []) && IsRun(run)
    && (forall m {:trigger events[m]} :: 0 <= m < n ==>
          Happens(events[m], run[m], run[m + 1], around[m], around[m + 1]))
    && (forall m {:trigger events[m]} :: 0 <= m < n ==> Prompt(events, m, start, run[m], run[m + 1]))
  }

  lemma {:induction false} ToldGrows(events: seq<Event>, n: nat, start: int, run: seq<History<string, Task>>,
                                     around: seq<Outside>, h: History<string, Task>, o: Outside)
    requires n < |events| && Told(events, n, start, run, around) && Follows(run[n], h)
    requires Happens(events[n], run[n], h, around[n], o) && Prompt(events, n, start, run[n], h)
    ensures Told(events, n + 1, start, run + [h], around + [o])
  {
    var run', around' := run + [h], around + [o];
    forall m | 0 <= m < n + 1 ensures Happens(events[m], run'[m], run'[m + 1], around'[m], around'[m + 1]) {
      if m < n {
        assert events[m] == events[m] && run'[m] == run[m] && run'[m + 1] == run[m + 1];
      }
    }
    forall m | 0 <= m < n + 1 ensures Prompt(events, m, start, run'[m], run'[m + 1]) {
      if m < n {
        var e := events[m];
        assert Prompt(events, m, start, run[m], run[m + 1]);
      }
    }
  }

  class Scheduler {
    const heap: TaskHeap
    var tasks: map<string, Task>   // ID -> task
    var addCh: seq<Task>           // tasks handed to the loop and not received yet
    var timer: int                 // when the armed timer goes off
    ghost var running: set<Task>   // tasks fired and not returned
    ghost var removed: set<Task>   // tasks taken out while queued, by Cancel or by another of the same ID
    ghost var fired: seq<Firing<string, Task>>
    ghost var dues: map<string, int>  // when the queued tasks are due
    ghost var handed: seq<Pending>    // what is in addCh

    constructor (now: int)
      ensures Valid() && heap.items == [] && addCh == [] && running == {} && Past() == History(map[], map[], {}, [])
      ensures fresh(heap)
    {
      heap := new TaskHeap();
      tasks, addCh, timer, running, removed, fired, dues, handed := map[], [], now, {}, {}, [], map[], [];
    }

    ghost function Past(): History<string, Task>
      reads this
    {
      History(tasks, dues, removed, fired)
    }

    ghost function Queued(): set<Task>
      reads heap
    {
      Members(heap.items)
    }

    /** The heap is ordered and knows its slots, and the map is exactly the heap keyed by ID. */
    ghost predicate QueueOk()
      reads this`tasks, this`dues, heap, Queued()`index, Queued()`next
    {
      heap.Ordered() && Keyed(tasks, Queued()) && DueTimes(Queued(), dues) && dues.Keys == tasks.Keys
    }

    ghost predicate NoneCancelled()
      reads this`addCh, this`running, heap, Queued()`cancelled, addCh`cancelled, running`cancelled
    {
      Uncancelled(Queued()) && Uncancelled(Members(addCh)) && Uncancelled(running)
    }

    /** A task is in at most one place; and what was removed while queued is nowhere. */
    ghost predicate PlacesOk()
      reads this, heap, addCh`next
    {
      && Distinct(addCh) && Lists(handed, addCh)
      && Members(addCh) !! running && Queued() !! running && Queued() !! Members(addCh)
      && removed !! Members(addCh) && removed !! running && removed !! Queued()
    }

    ghost predicate Valid()
      reads this, heap, Queued(), addCh, running
    {
      QueueOk() && PlacesOk() && NoneCancelled()
    }

    // ----- the heap and the map -----

    method Insert(t: Task)
      requires QueueOk() && t.id !in tasks && t !in Queued()
      modifies this`tasks, this`dues, heap, Queued()`index, t`index
      ensures QueueOk() && tasks == old(tasks)[t.id := t] && dues == old(dues)[t.id := t.next]
      ensures Queued() == old(Queued()) + {t}
    {
      heap.HeapPush(t);
      tasks, dues := tasks[t.id := t], dues[t.id := t.next];
    }

    method Delete(id: string)
      requires QueueOk() && id in tasks
      modifies this`tasks, this`dues, heap, Queued()`index
      ensures QueueOk() && tasks == old(tasks) - {id} && dues == old(dues) - {id}
      ensures Queued() == old(Queued()) - {old(tasks)[id]}
    {
      var t := tasks[id];
      assert t in Queued() && t in heap.items && heap.items[t.index] == t;
      if t.index >= 0 {
        var r := heap.HeapRemove(t.index);
      }
      tasks, dues := tasks - {id}, dues - {id};
    }

    method DeleteFirst() returns (t: Task)
      requires QueueOk() && heap.items != []
      modifies this`tasks, this`dues, heap, Queued()`index
      ensures QueueOk() && t == old(heap.items[0]) && t in old(Queued()) && t.id in old(tasks) && old(tasks)[t.id] == t
      ensures tasks == old(tasks) - {t.id} && dues == old(dues) - {t.id} && Queued() == old(Queued()) - {t}
    {
      ghost var before := heap.items;
      assert before[0] in Queued();
      t := heap.HeapPop();
      tasks, dues := tasks - {t.id}, dues - {t.id};
    }

    // ----- the loop's parts -----

    /** The timer was set for the earliest task, at time t. */
    ghost predicate ArmedAt(t: int)
      reads this`timer, heap, Queued()`next
    {
      heap.items != [] ==> timer == if heap.items[0].next <= t then t else heap.items[0].next
    }

    /** schedule: hands a new task to the loop. */
    method Schedule(id: string, next: int, interval: int) returns (t: Task)
      requires Valid()
      modifies this`addCh, this`handed
      ensures Valid() && fresh(t) && t.id == id && t.next == next && t.interval == interval && !t.cancelled
      ensures addCh == old(addCh) + [t] && handed == old(handed) + [Pending(t, next)]
    {
      t := new Task(id, next, interval);
      assert Members(addCh + [t]) == Members(addCh) + {t};
      addCh, handed := addCh + [t], handed + [Pending(t, next)];
    }

    /** The top of the loop; 24 hours are counted in the unit of now. */
    method Arm(now: int, day: nat)
      requires Valid()
      modifies this`timer
      ensures Valid() && ArmedAt(now) && (heap.items == [] ==> timer == now + day)
    {
      if heap.items == [] {
        timer := now + day;
      } else {
        var d := heap.items[0].next - now;
        if d < 0 {
          d := 0;
        }
        timer := now + d;
      }
    }

    /** The task queued under an ID is cancelled and taken out. */
    method TakeOut(id: string)
      requires Valid() && id in tasks
      modifies this`tasks, this`dues, this`removed, heap, Queued()`index, Queued()`cancelled
      ensures Valid() && tasks == old(tasks) - {id} && dues == old(dues) - {id}
      ensures removed == old(removed) + {old(tasks)[id]}
      ensures Queued() == old(Queued()) - {old(tasks)[id]} && old(tasks)[id].cancelled
      ensures forall t :: t in old(Queued()) && t.id != id ==> t.cancelled == old(t.cancelled)
    {
      var t := tasks[id];
      t.cancelled := true;
      Delete(id);
      removed := removed + {t};
    }

    /** A task of the same ID that is still queued is cancelled and taken out. */
    method Displace(id: string)
      requires Valid()
      modifies this`tasks, this`dues, this`removed, heap, Queued()`index, Queued()`cancelled
      ensures Valid() && Past() == Removed(old(Past()), id)
      ensures Queued() == old(Queued()) - removed && Queued() <= old(Queued())
      ensures id in old(tasks) ==> old(tasks)[id].cancelled
      ensures id !in old(tasks) ==> heap.items == old(heap.items) && Past() == old(Past())
      ensures forall t :: t in old(Queued()) && t.id != id ==> t.cancelled == old(t.cancelled)
    {
      if id in tasks {
        TakeOut(id);
      } else {
        assert tasks - {id} == tasks && dues - {id} == dues;
      }
    }

    /** A task handed over is received: one of the same ID that is still queued is displaced. */
    method HandleAdd() returns (t: Task)
      requires Valid() && addCh != []
      modifies this`tasks, this`dues, this`removed, this`addCh, this`handed
      modifies heap, Queued()`index, Queued()`cancelled, {addCh[0]}`index
      ensures Valid() && t == old(addCh[0]) && addCh == old(addCh)[1..]
      ensures old(handed) == [Pending(t, t.next)] + handed
      ensures Past() == Entered(old(Past()), t.id, t, t.next)
      ensures Queued() == old(Queued()) - removed + {t}
      ensures t.id in old(tasks) ==> old(tasks)[t.id].cancelled
      ensures forall u :: u in old(Queued()) && u.id != t.id ==> u.cancelled == old(u.cancelled)
    {
      t := Receive();
      assert Queued() == old(Queued());
      EnteredAfterRemoved(Past(), t.id, t, t.next);
      Displace(t.id);
      assert t !in Queued() && t !in removed;
      Enter(t);
    }

    method Receive() returns (t: Task)
      requires Valid() && addCh != []
      modifies this`addCh, this`handed
      ensures Valid() && t == old(addCh[0]) && addCh == old(addCh)[1..]
      ensures old(handed) == [Pending(t, t.next)] + handed
      ensures t !in Queued() && t !in Members(addCh) && t !in running && t !in removed && !t.cancelled
    {
      t := addCh[0];
      assert addCh == [t] + addCh[1..] && t in Members(addCh);
      assert t !in Members(addCh[1..]) && Members(addCh[1..]) <= Members(addCh);
      addCh, handed := addCh[1..], handed[1..];
    }

    /** Queues a task that is nowhere and whose ID is free. */
    method Enter(t: Task)
      requires Valid() && t.id !in tasks && t !in Queued() && t !in Members(addCh) && t !in running && t !in removed
      requires !t.cancelled
      modifies this`tasks, this`dues, heap, Queued()`index, t`index
      ensures Valid() && tasks == old(tasks)[t.id := t] && Queued() == old(Queued()) + {t}
      ensures Past() == Entered(old(Past()), t.id, t, t.next)
    {
      assert tasks - {t.id} == tasks && dues - {t.id} == dues;
      Insert(t);
    }

    /** An ID to be cancelled is received. */
    method HandleCancel(id: string)
      requires Valid()
      modifies this`tasks, this`dues, this`removed, heap, Queued()`index, Queued()`cancelled
      ensures Valid() && Past() == Removed(old(Past()), id)
      ensures Queued() == old(Queued()) - removed
      ensures id in old(tasks) ==> old(tasks)[id].cancelled
      ensures id !in old(tasks) ==> heap.items == old(heap.items) && Past() == old(Past())
      ensures forall t :: t in old(Queued()) && t.id != id ==> t.cancelled == old(t.cancelled)
    {
      Displace(id);
    }

    /** Takes the first task out of heap and map. */
    method PopFirst() returns (t: Task)
      requires Valid() && heap.items != []
      modifies this`tasks, this`dues, this`running, heap, Queued()`index
      ensures Valid() && t == old(heap.items[0]) && t in old(Queued())
      ensures t.id in old(tasks) && old(tasks)[t.id] == t && t !in removed
      ensures Queued() == old(Queued()) - {t} && running == old(running) + {t}
      ensures tasks == old(tasks) - {t.id} && dues == old(dues) - {t.id}
    {
      t := DeleteFirst();
      running := running + {t};
    }

    /** The timer goes off: the earliest task, if there is one, is started. */
    method HandleTimer(now: int, ghost armed: int) returns (t: Task?)
      requires Valid() && ArmedAt(armed) && timer <= now
      modifies this`tasks, this`dues, this`running, this`fired, heap, Queued()`index
      ensures Valid() && (t == null <==> old(heap.items) == [])
      ensures t == null ==> Past() == old(Past()) && Queued() == old(Queued()) && running == old(running)
      ensures t != null ==> t in old(Queued()) && old(tasks)[t.id] == t && t !in removed && t.next <= now
      ensures t != null ==> IsFirst(old(Past()), t.id) && Past() == Started(old(Past()), t.id, now)
      ensures t != null ==> Queued() == old(Queued()) - {t} && running == old(running) + {t}
    {
      if heap.items == [] {
        return null;
      }
      ghost var past := Past();
      RootIsFirst();
      t := PopFirst();
      fired := fired + [Firing(t, t.next, now, past.dues)];
    }

    lemma {:induction false} RootIsFirst()
      requires Valid() && heap.items != []
      ensures IsFirst(Past(), heap.items[0].id) && tasks[heap.items[0].id] == heap.items[0]
    {
      heap.FirstIsEarliest();
      assert heap.items[0] in Queued();
    }

    /** A task is due exactly when the first of the heap is. */
    lemma {:induction false} DueExactly(at: int)
      requires Valid()
      ensures AnyDue(Past(), at) <==> heap.items != [] && heap.items[0].next <= at
    {
      assert forall id :: id in tasks ==> tasks[id] in Queued();
      if heap.items != [] {
        RootIsFirst();
      }
    }

    /** The end of a task's goroutine: a periodic task that is not cancelled goes back to the loop. */
    method TaskReturns(t: Task, now: int)
      requires Valid() && t in running
      modifies this`addCh, this`handed, this`running, t`next
      ensures Valid() && Past() == old(Past())
      ensures running == old(running) - {t} && t.cancelled == old(t.cancelled)
      ensures if t.interval > 0 && !t.cancelled then addCh == old(addCh) + [t] && t.next == now + t.interval
              else addCh == old(addCh) && t.next == old(t.next)
      ensures handed == if addCh == old(addCh) then old(handed) else old(handed) + [Pending(t, t.next)]
    {
      running := running - {t};
      if t.interval > 0 && !t.cancelled {
        assert t !in Members(addCh);
        t.next := now + t.interval;
        assert Members(addCh + [t]) == Members(addCh) + {t};
        addCh, handed := addCh + [t], handed + [Pending(t, t.next)];
      }
    }

    // ----- the loop -----

    ghost function Known(): set<Task>
      reads this, heap
    {
      Queued() + Members(addCh) + running
    }

    /** The end of the i-th of the goroutines running. */
    method Return(going: seq<Task>, i: nat, now: int) returns (left: seq<Task>)
      requires Valid() && Going(going) && i < |going|
      modifies this`addCh, this`handed, this`running, Members(going)`next
      ensures Valid() && Going(left) && Past() == old(Past()) && Known() <= old(Known())
      ensures Outside(handed, left) == AfterReturn(Outside(old(handed), going), i, now)
    {
      var t := going[i];
      left := going[..i] + going[i + 1..];
      assert going == going[..i] + [t] + going[i + 1..];
      TaskReturns(t, now);
    }

    /** going lists the goroutines running. */
    ghost predicate Going(going: seq<Task>)
      reads this
    {
      Members(going) == running && Distinct(going)
    }

    /** A task is received, and the loop goes round. */
    method Add(now: int, day: nat)
      requires Valid() && addCh != []
      modifies this`tasks, this`dues, this`removed, this`addCh, this`handed, this`timer
      modifies heap, Queued()`index, Queued()`cancelled, {addCh[0]}`index
      ensures Valid() && ArmedAt(now) && Known() <= old(Known())
      ensures Received(old(Past()), Past(), old(handed), handed)
    {
      ghost var past, w, known := Past(), handed, Known();
      assert addCh[0] in Members(addCh) && forall i :: 1 <= i < |addCh| ==> addCh[i] in Members(addCh);
      var t := HandleAdd();
      assert Known() <= known;
      ReceivedFirst(past, w, handed, Pending(t, t.next));
      Arm(now, day);
    }

    /** A cancellation is received, and the loop goes round. */
    method Cancel(id: string, now: int, day: nat)
      requires Valid()
      modifies this`tasks, this`dues, this`removed, this`timer, heap, Queued()`index, Queued()`cancelled
      ensures Valid() && ArmedAt(now) && Known() <= old(Known())
      ensures Follows(old(Past()), Past()) && Past() == Removed(old(Past()), id)
    {
      ghost var past := Past();
      HandleCancel(id);
      RemovedFollows(past, id);
      Arm(now, day);
    }

    /** The timer goes off, and the loop goes round. */
    method Fire(going: seq<Task>, at: int, now: int, day: nat, ghost armed: int) returns (left: seq<Task>)
      requires Valid() && ArmedAt(armed) && timer <= at && Going(going)
      modifies this`tasks, this`dues, this`running, this`fired, this`timer, heap, Queued()`index
      ensures Valid() && ArmedAt(now) && Going(left) && Known() <= old(Known()) && Follows(old(Past()), Past())
      ensures if AnyDue(old(Past()), at)
              then StartsOne(old(Past()), Past(), at, Outside(handed, going), Outside(handed, left))
              else Past() == old(Past()) && left == going
    {
      ghost var past := Past();
      DueExactly(at);
      var t := HandleTimer(at, armed);
      left := going;
      if t != null {
        left := going + [t];
        StartFollows(past, t.id, at);
      }
      Arm(now, day);
    }

    /** One event, and then the top of the loop if it was the loop's; armed is when the timer was set last. */
    method React(e: Event, day: nat, going: seq<Task>, ghost armed: int) returns (left: seq<Task>, ghost armed': int)
      requires Valid() && ArmedAt(armed) && Going(going)
      modifies this, heap, Known()
      ensures Valid() && ArmedAt(armed') && Going(left) && fresh(Known() - old(Known()))
      ensures armed' == armed || (!e.Schedule? && armed' == e.now)
      ensures Follows(old(Past()), Past())
      ensures Happens(e, old(Past()), Past(), Outside(old(handed), going), Outside(handed, left))
      ensures e.Tick? && armed <= e.at && AnyDue(old(Past()), e.at) ==> Fires(old(Past()), Past(), e.at)
    {
      left, armed' := going, armed;
      ghost var past := Past();
      match e
      case Schedule(id, next, interval) =>
        var t := Schedule(id, next, interval);
      case Return(i, now) =>
        if i < |going| {
          left := Return(going, i, now);
        }
      case Add(now) =>
        if addCh != [] {
          ghost var w := handed;
          Add(now, day);
          ReceivedFollows(past, Past(), w, handed);
          armed' := now;
        }
      case Cancel(id, now) =>
        Cancel(id, now, day);
        armed' := now;
      case Tick(at, now) =>
        DueExactly(at);
        if timer <= at {
          left := Fire(going, at, now, day, armed);
          armed' := now;
        }
    }
  }

  /** The loop, from New on, for any events in any order.  A task taken out while queued, by Cancel or by another
      of its ID, is not started afterwards; and as long as the clock does not go back a task is started exactly
      when the timer is looked at with one due, the earliest first. */
  method Loop(events: seq<Event>, start: int, day: nat)
      returns (s: Scheduler, ghost run: seq<History<string, Task>>, ghost around: seq<Outside>)
    ensures s.Valid() && Told(events, |events|, start, run, around) && Orderly(run)
    ensures run[|events|] == s.Past() && around[|events|].handed == s.handed && s.Going(around[|events|].going)
  {
    s := new Scheduler(start);
    s.Arm(start, day);
    var going: seq<Task> := [];
    ghost var armed := start;
    run, around := [s.Past()], [Outside([], [])];
    for n := 0 to |events|
      invariant fresh(s) && fresh(s.heap) && s.Valid() && s.ArmedAt(armed) && s.Going(going) && fresh(s.Known())
      invariant InOrder(events, n, start) ==> armed <= Clock(events, n, start)
      invariant Told(events, n, start, run, around) && run[n] == s.Past() && around[n] == Outside(s.handed, going)
    {
      ghost var before := armed;
      going, armed := s.React(events[n], day, going, armed);
      ghost var h, o := s.Past(), Outside(s.handed, going);
      ArmedIsPrompt(events, n, start, before, run[n], h, around[n], o);
      ToldGrows(events, n, start, run, around, h, o);
      run, around := run + [h], around + [o];
    }
    RunsAreOrderly(run);
  }

  /** Cancel while a periodic task is running has no effect: the task goes back to the queue. */
  method CancelWhileRunning(s: Scheduler, t: Task, now: int)
    requires s.Valid() && t in s.running && t.id !in s.tasks && s.addCh == [] && t.interval > 0 && !t.cancelled
    modifies s, s.heap, s.Queued(), t
    ensures s.Valid() && t in s.Queued() && t !in s.removed && s.fired == old(s.fired)
  {
    s.HandleCancel(t.id);
    s.TaskReturns(t, now);
    var added := s.HandleAdd();
  }

  /** A scheduler with one task queued. */
  method QueueOne(id: string, interval: int) returns (s: Scheduler, t: Task)
    ensures fresh(s) && fresh(s.heap) && fresh(t) && s.Valid() && s.Queued() == {t} && s.addCh == []
    ensures s.tasks == map[id := t] && s.running == {} && s.fired == []
    ensures t.id == id && t.next == 0 && t.interval == interval && !t.cancelled
  {
    s := new Scheduler(0);
    t := s.Schedule(id, 0, interval);
    var added := s.HandleAdd();
  }

  /** And one that has started it. */
  method StartOne(id: string, interval: int, day: nat) returns (s: Scheduler, t: Task)
    ensures fresh(s) && fresh(s.heap) && fresh(t) && s.Valid() && s.Queued() == {} && s.addCh == []
    ensures s.running == {t} && t.id == id && t.id !in s.tasks && t.interval == interval && !t.cancelled
    ensures |s.fired| == 1 && s.fired[0].item == t
  {
    s, t := QueueOne(id, interval);
    assert t in s.Queued() && s.heap.items[0] in s.Queued();
    s.Arm(0, day);
    var started := s.HandleTimer(0, 0);
  }

  /** So it happens in a run from New on. */
  method CancelledButQueuedAgain(id: string, interval: int, day: nat) returns (s: Scheduler, t: Task)
    requires interval > 0
    ensures s.Valid() && t.id == id && t in s.Queued() && t !in s.removed
    ensures |s.fired| == 1 && s.fired[0].item == t
  {
    s, t := StartOne(id, interval, day);
    CancelWhileRunning(s, t, 0);
  }
}
