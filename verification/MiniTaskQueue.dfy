/**
 The worker pool of language/python/mini-runtime/mini_framework/mini_task_queue.py.

 Workers, submitters and the thread that calls stop(wait=True) take steps in any order.  What a handler
 does with a payload is chosen by the schedule: it returns, it raises an Exception, or it raises
 something that "except Exception" does not catch, which ends the worker.  A task is named by the
 number of its submission.  The fields fate, handled and aborted are auxiliary.
*/
module MiniTaskQueue {
  import opened Sequences
  import opened Wrappers

  type TaskId = nat

  datatype Task = Task(payload: Option<int>, attempts: nat)

  /** The next thing a worker does. */
  datatype Worker =
    | Getting
    | Handling(id: TaskId)
    | Retrying(id: TaskId)
    | Burying(id: TaskId)
    | Finishing
    | Exiting
    | Dead

  datatype Fate = InQueue | With(w: nat) | Handled | DeadLettered | Aborted | Consumed

  datatype Stopper =
    | NotCalled
    | Joining(before: nat)
    | Putting(before: nat, sentinels: nat)
    | JoiningWorkers(before: nat)
    | Returned(before: nat, result: seq<TaskId>)

  datatype State = State(
    maxRetries: int,
    tasks: seq<Task>,
    queue: seq<TaskId>,
    unfinished: nat,
    workers: seq<Worker>,
    deadLetter: seq<TaskId>,
    stopper: Stopper,
    fate: seq<Fate>,
    handled: seq<TaskId>,
    aborted: seq<TaskId>)

  datatype Outcome = Returns | Raises | Aborts

  datatype Action = Submit(payload: Option<int>) | Work(w: nat, outcome: Outcome) | Stop

  function New(workers: nat, maxRetries: int): State {
    State(maxRetries, [], [], 0, seq(workers, _ => Getting), [], NotCalled, [], [], [])
  }

  // ----- queue.Queue -----

  function PutNew(s: State, payload: Option<int>): State {
    s.(tasks := s.tasks + [Task(payload, 0)], fate := s.fate + [InQueue],
       queue := s.queue + [|s.tasks|], unfinished := s.unfinished + 1)
  }

  /** task_done; Python raises ValueError when it is called too often, which here would block. */
  function TaskDone(s: State, w: nat, next: Worker): State
    requires w < |s.workers|
  {
    if s.unfinished == 0 then s else s.(unfinished := s.unfinished - 1, workers := s.workers[w := next])
  }

  // ----- the steps -----

  function Limit(s: State): nat {
    if s.maxRetries < 0 then 0 else s.maxRetries
  }

  function WorkerStep(s: State, w: nat, outcome: Outcome): State
    requires w < |s.workers| && |s.fate| == |s.tasks|
  {
    match s.workers[w]
    case Getting =>
      if s.queue == [] || s.queue[0] >= |s.tasks| then s
      else
        var id := s.queue[0];
        if s.tasks[id].payload == None && s.tasks[id].attempts == 0 then
          s.(queue := s.queue[1..], workers := s.workers[w := Exiting], fate := s.fate[id := Consumed])
        else
          s.(queue := s.queue[1..], workers := s.workers[w := Handling(id)], fate := s.fate[id := With(w)])
    case Handling(id) =>
      if id >= |s.tasks| then s
      else (
        match outcome
        case Returns => s.(workers := s.workers[w := Finishing], fate := s.fate[id := Handled],
          handled := s.handled + [id])
        case Aborts => s.(workers := s.workers[w := Exiting], fate := s.fate[id := Aborted],
          aborted := s.aborted + [id])
        case Raises =>
          var t := s.tasks[id].(attempts := s.tasks[id].attempts + 1);
          var next := if t.attempts <= s.maxRetries then Retrying(id) else Burying(id);
          s.(tasks := s.tasks[id := t], workers := s.workers[w := next])
      )
    case Retrying(id) =>
      if id >= |s.tasks| then s
      else s.(queue := s.queue + [id], unfinished := s.unfinished + 1, workers := s.workers[w := Finishing],
        fate := s.fate[id := InQueue])
    case Burying(id) =>
      if id >= |s.tasks| then s
      else s.(deadLetter := s.deadLetter + [id], workers := s.workers[w := Finishing],
        fate := s.fate[id := DeadLettered])
    case Finishing => TaskDone(s, w, Getting)
    case Exiting => TaskDone(s, w, Dead)
    case Dead => s
  }

  function StopStep(s: State): State {
    match s.stopper
    case NotCalled => s.(stopper := Joining(|s.tasks|))
    case Joining(before) => if s.unfinished == 0 then s.(stopper := Putting(before, 0)) else s
    case Putting(before, n) =>
      if n < |s.workers| then PutNew(s, None).(stopper := Putting(before, n + 1))
        else s.(stopper := JoiningWorkers(before))
    case JoiningWorkers(before) =>
      if forall w :: 0 <= w < |s.workers| ==> s.workers[w] == Dead then s.(stopper := Returned(before, s.deadLetter))
        else s
    case Returned(_, _) => s
  }

  function Step(s: State, a: Action): State
    requires |s.fate| == |s.tasks|
  {
    match a
    case Submit(payload) => PutNew(s, payload)
    case Work(w, outcome) => if w < |s.workers| then WorkerStep(s, w, outcome) else s
    case Stop => StopStep(s)
  }

  function Run(workers: nat, maxRetries: int, schedule: seq<Action>): (s: State)
    ensures |s.fate| == |s.tasks|
  {
    if schedule == [] then New(workers, maxRetries)
    else Step(Run(workers, maxRetries, schedule[..|schedule| - 1]), schedule[|schedule| - 1])
  }

  // ----- the invariant -----

  function Busy(w: Worker): nat {
    if w.Getting? || w.Dead? then 0 else 1
  }

  function Sum(workers: seq<Worker>, f: Worker -> nat): nat {
    if workers == [] then 0 else Sum(workers[..|workers| - 1], f) + f(workers[|workers| - 1])
  }

  function InFlight(workers: seq<Worker>): nat {
    Sum(workers, Busy)
  }

  lemma {:induction false} SumUpdate(workers: seq<Worker>, w: nat, x: Worker, f: Worker -> nat)
    requires w < |workers|
    ensures Sum(workers[w := x], f) == Sum(workers, f) - f(workers[w]) + f(x)
  {
    var n := |workers| - 1;
    if w < n {
      assert workers[w := x][..n] == workers[..n][w := x];
      SumUpdate(workers[..n], w, x, f);
    } else {
      assert workers[w := x][..n] == workers[..n];
    }
  }

  lemma {:induction false} SumAtLeast(workers: seq<Worker>, w: nat, f: Worker -> nat)
    requires w < |workers|
    ensures Sum(workers, f) >= f(workers[w])
  {
    if w < |workers| - 1 { SumAtLeast(workers[..|workers| - 1], w, f); }
  }

  function Holds(w: Worker): Option<TaskId> {
    match w
    case Handling(id) => Some(id)
    case Retrying(id) => Some(id)
    case Burying(id) => Some(id)
    case _ => None
  }

  /** ids lists, once each, tasks of fate f. */
  ghost predicate Lists(s: State, ids: seq<TaskId>, f: Fate)
    requires |s.fate| == |s.tasks|
  {
    && (forall k :: 0 <= k < |ids| ==> ids[k] < |s.tasks| && s.fate[ids[k]] == f)
    && Distinct(ids)
  }

  predicate TaskOk(s: State, i: TaskId)
    requires |s.fate| == |s.tasks| && i < |s.tasks|
  {
    var t, f := s.tasks[i], s.fate[i];
    && (t.payload == None ==> (f.InQueue? || f.Consumed?) && t.attempts == 0)
    && (t.payload != None ==> !f.Consumed?)
    && match f
       case InQueue => i in s.queue && t.attempts <= Limit(s)
       case With(w) => w < |s.workers| && Holds(s.workers[w]) == Some(i)
       case Handled => i in s.handled && t.attempts <= Limit(s)
       case DeadLettered => i in s.deadLetter && t.attempts == Limit(s) + 1
       case Aborted => i in s.aborted && t.attempts <= Limit(s)
       case Consumed => true
  }

  predicate WorkerOk(s: State, w: nat)
    requires |s.fate| == |s.tasks| && w < |s.workers|
  {
    match s.workers[w]
    case Handling(id) => id < |s.tasks| && s.fate[id] == With(w) && s.tasks[id].attempts <= Limit(s)
    case Retrying(id) => id < |s.tasks| && s.fate[id] == With(w) && 1 <= s.tasks[id].attempts <= Limit(s)
    case Burying(id) => id < |s.tasks| && s.fate[id] == With(w) && s.tasks[id].attempts == Limit(s) + 1
    case _ => true
  }

  predicate Settled(f: Fate) {
    !f.InQueue? && !f.With?
  }

  ghost predicate AllSettled(s: State, n: nat) {
    n <= |s.fate| && forall i :: 0 <= i < n ==> Settled(s.fate[i])
  }

  ghost predicate StopOk(s: State) {
    match s.stopper
    case NotCalled => true
    case Joining(before) => before <= |s.fate|
    case Putting(before, _) => AllSettled(s, before)
    case JoiningWorkers(before) => AllSettled(s, before)
    case Returned(before, result) => AllSettled(s, before) && Complete(s, before, result)
  }

  /** result lists the dead letters among the first n tasks. */
  ghost predicate Complete(s: State, n: nat, result: seq<TaskId>)
    requires n <= |s.fate|
  {
    && result <= s.deadLetter
    && forall i :: 0 <= i < n && s.fate[i] == DeadLettered ==> i in result
  }

  ghost predicate Inv(s: State) {
    && |s.fate| == |s.tasks|
    && s.unfinished == |s.queue| + InFlight(s.workers)
    && Lists(s, s.queue, InQueue) && Lists(s, s.handled, Handled)
    && Lists(s, s.deadLetter, DeadLettered) && Lists(s, s.aborted, Aborted)
    && (forall i {:trigger TaskOk(s, i)} :: 0 <= i < |s.tasks| ==> TaskOk(s, i))
    && (forall w {:trigger WorkerOk(s, w)} :: 0 <= w < |s.workers| ==> WorkerOk(s, w))
    && StopOk(s)
  }

  lemma Kept(s: State, s': State, ids: seq<TaskId>, f: Fate)
    requires |s.fate| == |s.tasks| == |s'.fate| == |s'.tasks| && Lists(s, ids, f)
    requires forall i :: 0 <= i < |s.fate| && s.fate[i] == f ==> s'.fate[i] == f
    ensures Lists(s', ids, f)
  {
  }

  lemma Added(s: State, s': State, ids: seq<TaskId>, f: Fate, id: TaskId)
    requires |s.fate| == |s.tasks| == |s'.fate| == |s'.tasks| && Lists(s, ids, f)
    requires forall i :: 0 <= i < |s.fate| && s.fate[i] == f ==> s'.fate[i] == f
    requires id < |s.fate| && s.fate[id] != f && s'.fate[id] == f
    ensures Lists(s', ids + [id], f)
  {
  }

  /** A task in a worker's hands meets the fate f: only the list of that fate grows. */
  lemma {:induction false} MovedLists(s: State, s': State, id: TaskId, f: Fate)
    requires Inv(s) && id < |s.tasks| && s.fate[id].With? && (f == Handled || f == DeadLettered || f == Aborted)
    requires |s'.tasks| == |s.tasks| && s'.fate == s.fate[id := f] && s'.queue == s.queue
    requires s'.handled == if f == Handled then s.handled + [id] else s.handled
    requires s'.deadLetter == if f == DeadLettered then s.deadLetter + [id] else s.deadLetter
    requires s'.aborted == if f == Aborted then s.aborted + [id] else s.aborted
    ensures Lists(s', s'.queue, InQueue) && Lists(s', s'.handled, Handled)
    ensures Lists(s', s'.deadLetter, DeadLettered) && Lists(s', s'.aborted, Aborted)
  {
    Kept(s, s', s.queue, InQueue);
    if f == Handled { Added(s, s', s.handled, f, id); } else { Kept(s, s', s.handled, Handled); }
    if f == DeadLettered { Added(s, s', s.deadLetter, f, id); } else { Kept(s, s', s.deadLetter, DeadLettered); }
    if f == Aborted { Added(s, s', s.aborted, f, id); } else { Kept(s, s', s.aborted, Aborted); }
  }

  lemma {:induction false} PutInv(s: State, payload: Option<int>)
    requires Inv(s)
    ensures Inv(PutNew(s, payload))
  {
    var s' := PutNew(s, payload);
    forall i | 0 <= i < |s'.tasks| ensures TaskOk(s', i) {
      if i < |s.tasks| { assert TaskOk(s, i); }
    }
    forall w | 0 <= w < |s'.workers| ensures WorkerOk(s', w) { assert WorkerOk(s, w); }
  }

  predicate CanGet(s: State, w: nat)
    requires |s.fate| == |s.tasks|
  {
    w < |s.workers| && s.workers[w].Getting? && s.queue != [] && s.queue[0] < |s.tasks| && TaskOk(s, s.queue[0])
  }

  lemma {:induction false} GetTask(s: State, w: nat, outcome: Outcome, i: TaskId)
    requires |s.fate| == |s.tasks| && CanGet(s, w) && i < |s.tasks| && TaskOk(s, i) && s.fate[s.queue[0]] == InQueue
    ensures var s' := WorkerStep(s, w, outcome); |s'.tasks| == |s'.fate| == |s.tasks| && TaskOk(s', i)
  {
    assert forall k :: k in s.queue ==> k == s.queue[0] || k in s.queue[1..];
  }

  lemma GetLists(s: State, w: nat, outcome: Outcome)
    requires Inv(s) && CanGet(s, w)
    ensures var s' := WorkerStep(s, w, outcome);
      && |s'.tasks| == |s'.fate|
      && Lists(s', s'.queue, InQueue) && Lists(s', s'.handled, Handled)
      && Lists(s', s'.deadLetter, DeadLettered) && Lists(s', s'.aborted, Aborted)
      && StopOk(s')
  {
  }

  lemma {:induction false} GetInv(s: State, w: nat, outcome: Outcome)
    requires Inv(s) && w < |s.workers| && s.workers[w].Getting?
    ensures Inv(WorkerStep(s, w, outcome))
  {
    if s.queue != [] {
      var s' := WorkerStep(s, w, outcome);
      assert TaskOk(s, s.queue[0]);
      SumUpdate(s.workers, w, s'.workers[w], Busy);
      GetLists(s, w, outcome);
      forall i | 0 <= i < |s'.tasks| ensures TaskOk(s', i) {
        assert TaskOk(s, i);
        GetTask(s, w, outcome, i);
      }
      forall v | 0 <= v < |s'.workers| ensures WorkerOk(s', v) { assert WorkerOk(s, v); }
    }
  }

  lemma {:induction false} HandledInv(s: State, w: nat, outcome: Outcome)
    requires Inv(s) && w < |s.workers| && s.workers[w].Handling? && outcome != Raises
    ensures Inv(WorkerStep(s, w, outcome))
  {
    var s', id := WorkerStep(s, w, outcome), s.workers[w].id;
    assert WorkerOk(s, w) && TaskOk(s, id);
    SumUpdate(s.workers, w, s'.workers[w], Busy);
    MovedLists(s, s', id, s'.fate[id]);
    forall i | 0 <= i < |s'.tasks| ensures TaskOk(s', i) { assert TaskOk(s, i); }
    forall v | 0 <= v < |s'.workers| ensures WorkerOk(s', v) { assert WorkerOk(s, v); }
  }

  lemma {:induction false} RaisedInv(s: State, w: nat)
    requires Inv(s) && w < |s.workers| && s.workers[w].Handling?
    ensures Inv(WorkerStep(s, w, Raises))
  {
    var s', id := WorkerStep(s, w, Raises), s.workers[w].id;
    assert WorkerOk(s, w) && TaskOk(s, id);
    SumUpdate(s.workers, w, s'.workers[w], Busy);
    forall i | 0 <= i < |s'.tasks| ensures TaskOk(s', i) { assert TaskOk(s, i); }
    forall v | 0 <= v < |s'.workers| ensures WorkerOk(s', v) { assert WorkerOk(s, v); }
  }

  lemma {:induction false} RetryInv(s: State, w: nat, outcome: Outcome)
    requires Inv(s) && w < |s.workers| && s.workers[w].Retrying?
    ensures Inv(WorkerStep(s, w, outcome))
  {
    var s', id := WorkerStep(s, w, outcome), s.workers[w].id;
    assert WorkerOk(s, w) && TaskOk(s, id);
    SumUpdate(s.workers, w, Finishing, Busy);
    forall i | 0 <= i < |s'.tasks| ensures TaskOk(s', i) { assert TaskOk(s, i); }
    forall v | 0 <= v < |s'.workers| ensures WorkerOk(s', v) { assert WorkerOk(s, v); }
  }

  lemma {:induction false} BuryInv(s: State, w: nat, outcome: Outcome)
    requires Inv(s) && w < |s.workers| && s.workers[w].Burying?
    ensures Inv(WorkerStep(s, w, outcome))
  {
    var s', id := WorkerStep(s, w, outcome), s.workers[w].id;
    assert WorkerOk(s, w) && TaskOk(s, id);
    SumUpdate(s.workers, w, Finishing, Busy);
    MovedLists(s, s', id, DeadLettered);
    forall i | 0 <= i < |s'.tasks| ensures TaskOk(s', i) { assert TaskOk(s, i); }
    forall v | 0 <= v < |s'.workers| ensures WorkerOk(s', v) { assert WorkerOk(s, v); }
  }

  lemma {:induction false} DoneInv(s: State, w: nat, next: Worker)
    requires Inv(s) && w < |s.workers| && Holds(s.workers[w]) == None && Busy(s.workers[w]) == 1
    requires next == Getting || next == Dead
    ensures Inv(TaskDone(s, w, next))
  {
    var s' := TaskDone(s, w, next);
    SumUpdate(s.workers, w, next, Busy);
    forall i | 0 <= i < |s'.tasks| ensures TaskOk(s', i) { assert TaskOk(s, i); }
    forall v | 0 <= v < |s'.workers| ensures WorkerOk(s', v) { assert WorkerOk(s, v); }
  }

  /** With nothing unfinished, every task has met its fate. */
  lemma {:induction false} NothingUnfinished(s: State)
    requires Inv(s) && s.unfinished == 0
    ensures AllSettled(s, |s.fate|)
  {
    forall i | 0 <= i < |s.fate| ensures Settled(s.fate[i]) {
      assert TaskOk(s, i);
      if s.fate[i].With? { SumAtLeast(s.workers, s.fate[i].w, Busy); }
    }
  }

  lemma {:induction false} StopInv(s: State)
    requires Inv(s)
    ensures Inv(StopStep(s))
  {
    var s' := StopStep(s);
    match s.stopper
    case Putting(before, n) =>
      if n < |s.workers| {
        PutInv(s, None);
        SameTasks(PutNew(s, None), s');
      } else {
        SameTasks(s, s');
      }
    case Joining(before) =>
      if s.unfinished == 0 { NothingUnfinished(s); }
      SameTasks(s, s');
    case JoiningWorkers(before) =>
      forall i | 0 <= i < before && s.fate[i] == DeadLettered ensures i in s.deadLetter { assert TaskOk(s, i); }
      SameTasks(s, s');
    case _ => SameTasks(s, s');
  }

  lemma {:induction false} SameTasks(s: State, s': State)
    requires Inv(s) && s' == s.(stopper := s'.stopper) && StopOk(s')
    ensures Inv(s')
  {
    forall i | 0 <= i < |s'.tasks| ensures TaskOk(s', i) { assert TaskOk(s, i); }
    forall v | 0 <= v < |s'.workers| ensures WorkerOk(s', v) { assert WorkerOk(s, v); }
  }

  lemma {:induction false} StepInv(s: State, a: Action)
    requires Inv(s)
    ensures Inv(Step(s, a))
  {
    match a
    case Submit(payload) => PutInv(s, payload);
    case Stop => StopInv(s);
    case Work(w, outcome) =>
      if w < |s.workers| {
        match s.workers[w]
        case Getting => GetInv(s, w, outcome);
        case Handling(_) => if outcome == Raises { RaisedInv(s, w); } else { HandledInv(s, w, outcome); }
        case Retrying(_) => RetryInv(s, w, outcome);
        case Burying(_) => BuryInv(s, w, outcome);
        case Finishing => DoneInv(s, w, Getting);
        case Exiting => DoneInv(s, w, Dead);
        case Dead =>
      }
  }

  lemma {:induction false} NothingInFlight(n: nat)
    ensures InFlight(seq(n, _ => Getting)) == 0
  {
    if n > 0 {
      assert seq(n, _ => Getting)[..n - 1] == seq(n - 1, _ => Getting);
      NothingInFlight(n - 1);
    }
  }

  lemma {:induction false} RunInv(workers: nat, maxRetries: int, schedule: seq<Action>)
    ensures Inv(Run(workers, maxRetries, schedule))
    ensures Run(workers, maxRetries, schedule).maxRetries == maxRetries
  {
    if schedule == [] {
      NothingInFlight(workers);
    } else {
      RunInv(workers, maxRetries, schedule[..|schedule| - 1]);
      StepInv(Run(workers, maxRetries, schedule[..|schedule| - 1]), schedule[|schedule| - 1]);
    }
  }

  // ----- graceful shutdown -----

  function Count(ids: seq<TaskId>, i: TaskId): nat {
    multiset(ids)[i]
  }

  lemma {:induction false} CountOnce(s: State, ids: seq<TaskId>, f: Fate, i: TaskId)
    requires |s.fate| == |s.tasks| && i < |s.fate| && Lists(s, ids, f)
    ensures Count(ids, i) <= 1 && (i in ids ==> s.fate[i] == f)
    ensures i in ids <==> Count(ids, i) == 1
  {
    if i in ids {
      var k :| 0 <= k < |ids| && ids[k] == i;
      assert ids == ids[..k] + [i] + ids[k + 1..];
      assert i !in ids[..k] && i !in ids[k + 1..];
    }
  }

  /** The attempts a task that keeps failing is allowed. */
  function AllowedAttempts(maxRetries: int): nat {
    if maxRetries < 0 then 1 else maxRetries + 1
  }

  /** When stop(wait=True) returns, every payload submitted before it was called has been handled once, or
      was dead-lettered once, after all its attempts, and is in the list returned, or was lost to a
      handler that ended its worker; exactly one of the three. */
  lemma {:induction false} GracefulShutdown(workers: nat, maxRetries: int, schedule: seq<Action>, i: TaskId)
    requires var s := Run(workers, maxRetries, schedule); s.stopper.Returned? && i < s.stopper.before
    requires var s := Run(workers, maxRetries, schedule); i < |s.tasks| && s.tasks[i].payload != None
    ensures var s := Run(workers, maxRetries, schedule);
      && Count(s.handled, i) + Count(s.stopper.result, i) + Count(s.aborted, i) == 1
      && Count(s.deadLetter, i) == Count(s.stopper.result, i)
      && (i in s.stopper.result ==> s.tasks[i].attempts == AllowedAttempts(maxRetries))
      && (i in s.handled ==> s.tasks[i].attempts < AllowedAttempts(maxRetries))
  {
    RunInv(workers, maxRetries, schedule);
    var s := Run(workers, maxRetries, schedule);
    assert TaskOk(s, i);
    CountOnce(s, s.handled, Handled, i);
    CountOnce(s, s.deadLetter, DeadLettered, i);
    CountOnce(s, s.aborted, Aborted, i);
    CountOnce(s, s.stopper.result, DeadLettered, i);
  }

  /** The count that join waits for is the tasks queued plus those whose worker has not called task_done;
      so task_done is never called too often. */
  lemma {:induction false} UnfinishedCount(workers: nat, maxRetries: int, schedule: seq<Action>)
    ensures var s := Run(workers, maxRetries, schedule);
      && s.unfinished == |s.queue| + InFlight(s.workers)
      && forall w :: 0 <= w < |s.workers| && Busy(s.workers[w]) == 1 ==> s.unfinished > 0
  {
    RunInv(workers, maxRetries, schedule);
    var s := Run(workers, maxRetries, schedule);
    forall w | 0 <= w < |s.workers| && Busy(s.workers[w]) == 1 ensures s.unfinished > 0 {
      if InFlight(s.workers) == 0 { SumAtLeast(s.workers, w, Busy); }
    }
  }

  // ----- tasks are submissions -----

  /** Payloads stay, and attempts only grow. */
  ghost predicate Keeps(s: State, s': State) {
    && |s.tasks| <= |s'.tasks|
    && forall i :: 0 <= i < |s.tasks| ==>
         s'.tasks[i].payload == s.tasks[i].payload && s'.tasks[i].attempts >= s.tasks[i].attempts
  }

  lemma StepKeeps(s: State, a: Action)
    requires |s.fate| == |s.tasks|
    ensures Keeps(s, Step(s, a))
  {
  }

  lemma {:induction false} RunKeeps(workers: nat, maxRetries: int, schedule: seq<Action>, n: nat)
    requires n <= |schedule|
    ensures Keeps(Run(workers, maxRetries, schedule[..n]), Run(workers, maxRetries, schedule))
  {
    if n == |schedule| {
      assert schedule[..n] == schedule;
    } else {
      var before := schedule[..|schedule| - 1];
      RunKeeps(workers, maxRetries, before, n);
      assert before[..n] == schedule[..n];
      StepKeeps(Run(workers, maxRetries, before), schedule[|schedule| - 1]);
    }
  }

  lemma {:induction false} RunNext(workers: nat, maxRetries: int, schedule: seq<Action>, n: nat)
    requires n < |schedule|
    ensures Run(workers, maxRetries, schedule[..n + 1]) == Step(Run(workers, maxRetries, schedule[..n]), schedule[n])
  {
    assert schedule[..n + 1][..n] == schedule[..n];
  }

  /** A submission adds a task of its payload, which it stays. */
  lemma {:induction false} SubmissionIsTask(workers: nat, maxRetries: int, schedule: seq<Action>, n: nat)
    requires n < |schedule| && schedule[n].Submit?
    ensures var s, id := Run(workers, maxRetries, schedule), |Run(workers, maxRetries, schedule[..n]).tasks|;
      id < |s.tasks| && s.tasks[id].payload == schedule[n].payload
  {
    RunNext(workers, maxRetries, schedule, n);
    RunKeeps(workers, maxRetries, schedule, n + 1);
  }

  /** And each task is a submission, or a None that stop has put. */
  lemma {:induction false} TaskIsSubmission(workers: nat, maxRetries: int, schedule: seq<Action>, id: TaskId)
      returns (n: nat)
    requires id < |Run(workers, maxRetries, schedule).tasks|
    ensures n < |schedule| && |Run(workers, maxRetries, schedule[..n]).tasks| == id
    ensures var payload := Run(workers, maxRetries, schedule).tasks[id].payload;
      schedule[n] == Submit(payload) || (schedule[n] == Stop && payload == None)
  {
    var before := schedule[..|schedule| - 1];
    var s := Run(workers, maxRetries, before);
    if id < |s.tasks| {
      n := TaskIsSubmission(workers, maxRetries, before, id);
      assert before[..n] == schedule[..n];
      StepKeeps(s, schedule[|schedule| - 1]);
    } else {
      n := |schedule| - 1;
      NewTask(s, schedule[n], id);
    }
  }

  lemma NewTask(s: State, a: Action, id: TaskId)
    requires |s.fate| == |s.tasks| <= id < |Step(s, a).tasks|
    ensures var payload := Step(s, a).tasks[id].payload;
      id == |s.tasks| && (a == Submit(payload) || (a == Stop && payload == None))
  {
  }

  lemma BeforeStays(s: State, a: Action)
    requires |s.fate| == |s.tasks| && !s.stopper.NotCalled?
    ensures !Step(s, a).stopper.NotCalled? && Step(s, a).stopper.before == s.stopper.before
  {
  }

  /** The tasks that stop waits for are those submitted before it was called. */
  lemma {:induction false} StopWaitsForEarlier(workers: nat, maxRetries: int, schedule: seq<Action>) returns (n: nat)
    requires !Run(workers, maxRetries, schedule).stopper.NotCalled?
    ensures n < |schedule| && schedule[n] == Stop && Stop !in schedule[..n]
    ensures Run(workers, maxRetries, schedule).stopper.before == |Run(workers, maxRetries, schedule[..n]).tasks|
  {
    var before := schedule[..|schedule| - 1];
    var s := Run(workers, maxRetries, before);
    if s.stopper.NotCalled? {
      n := |schedule| - 1;
      StopNotCalled(workers, maxRetries, before);
    } else {
      n := StopWaitsForEarlier(workers, maxRetries, before);
      assert before[..n] == schedule[..n];
      BeforeStays(s, schedule[|schedule| - 1]);
    }
  }

  lemma NotCalledBefore(s: State, a: Action)
    requires |s.fate| == |s.tasks| && Step(s, a).stopper.NotCalled?
    ensures s.stopper.NotCalled? && a != Stop
  {
  }

  lemma {:induction false} StopNotCalled(workers: nat, maxRetries: int, schedule: seq<Action>)
    requires Run(workers, maxRetries, schedule).stopper.NotCalled?
    ensures Stop !in schedule
  {
    if schedule != [] {
      var before, last := schedule[..|schedule| - 1], schedule[|schedule| - 1];
      NotCalledBefore(Run(workers, maxRetries, before), last);
      StopNotCalled(workers, maxRetries, before);
      assert schedule == before + [last];
    }
  }

  /** How often the handler has raised on task i. */
  function Raised(workers: nat, maxRetries: int, schedule: seq<Action>, i: TaskId): nat {
    if schedule == [] then 0
    else
      var before, a := schedule[..|schedule| - 1], schedule[|schedule| - 1];
      var s := Run(workers, maxRetries, before);
      Raised(workers, maxRetries, before, i) +
        if a.Work? && a.outcome == Raises && a.w < |s.workers| && s.workers[a.w] == Handling(i) then 1 else 0
  }

  /** Attempts are the times the handler was called and raised. */
  lemma {:induction false} AttemptsCounted(workers: nat, maxRetries: int, schedule: seq<Action>, i: TaskId)
    ensures var s := Run(workers, maxRetries, schedule);
      if i < |s.tasks| then s.tasks[i].attempts == Raised(workers, maxRetries, schedule, i)
      else Raised(workers, maxRetries, schedule, i) == 0
  {
    if schedule != [] {
      var before := schedule[..|schedule| - 1];
      var s := Run(workers, maxRetries, before);
      AttemptsCounted(workers, maxRetries, before, i);
      RunInv(workers, maxRetries, before);
      var a := schedule[|schedule| - 1];
      if a.Work? && a.w < |s.workers| { assert WorkerOk(s, a.w); }
    }
  }

  lemma {:induction false} SubmittedEarlier(workers: nat, maxRetries: int, schedule: seq<Action>, n: nat)
    requires n < |schedule| && schedule[n].Submit? && Stop !in schedule[..n]
    requires !Run(workers, maxRetries, schedule).stopper.NotCalled?
    ensures |Run(workers, maxRetries, schedule[..n]).tasks| < Run(workers, maxRetries, schedule).stopper.before
  {
    var m := StopWaitsForEarlier(workers, maxRetries, schedule);
    assert forall k :: 0 <= k < n ==> schedule[..n][k] == schedule[k];
    assert schedule[..m][..n + 1] == schedule[..n + 1];
    RunNext(workers, maxRetries, schedule, n);
    RunKeeps(workers, maxRetries, schedule[..m], n + 1);
  }

  /** When stop(wait=True) returns, every submission of a payload made before it was called is a task of that payload,
      and has been handled once, or dead-lettered once after the handler raised as often as allowed, and
      returned, or lost to a handler that ended its worker; exactly one of the three. */
  lemma {:induction false} EverySubmissionSettled(workers: nat, maxRetries: int, schedule: seq<Action>, n: nat)
    requires n < |schedule| && schedule[n].Submit? && schedule[n].payload != None && Stop !in schedule[..n]
    requires Run(workers, maxRetries, schedule).stopper.Returned?
    ensures var s, i := Run(workers, maxRetries, schedule), |Run(workers, maxRetries, schedule[..n]).tasks|;
      && i < |s.tasks| && s.tasks[i].payload == schedule[n].payload
      && Count(s.handled, i) + Count(s.stopper.result, i) + Count(s.aborted, i) == 1
      && (i in s.stopper.result ==> Raised(workers, maxRetries, schedule, i) == AllowedAttempts(maxRetries))
      && (i in s.handled ==> Raised(workers, maxRetries, schedule, i) < AllowedAttempts(maxRetries))
  {
    var i := |Run(workers, maxRetries, schedule[..n]).tasks|;
    SubmissionIsTask(workers, maxRetries, schedule, n);
    AttemptsCounted(workers, maxRetries, schedule, i);
    SubmittedEarlier(workers, maxRetries, schedule, n);
    GracefulShutdown(workers, maxRetries, schedule, i);
  }

  // ----- first come, first served -----

  /** No worker has taken the task yet. */
  predicate Untouched(s: State, i: TaskId)
    requires |s.fate| == |s.tasks|
  {
    i < |s.tasks| && s.fate[i] == InQueue && s.tasks[i].attempts == 0
  }

  /** Tasks not taken yet are queued in the order they were put, and none was put before one that was taken. */
  ghost predicate InTurn(s: State)
    requires |s.fate| == |s.tasks|
  {
    && (forall j, k :: 0 <= j < k < |s.queue| && Untouched(s, s.queue[j]) && Untouched(s, s.queue[k]) ==>
          s.queue[j] < s.queue[k])
    && (forall i, j :: 0 <= i < j < |s.tasks| && Untouched(s, i) ==> Untouched(s, j))
  }

  lemma {:induction false} GetInTurn(s: State, w: nat, outcome: Outcome)
    requires Inv(s) && InTurn(s) && w < |s.workers| && s.workers[w].Getting?
    ensures InTurn(WorkerStep(s, w, outcome))
  {
    if s.queue != [] {
      var s', id := WorkerStep(s, w, outcome), s.queue[0];
      assert forall k :: 0 <= k < |s'.queue| ==> s'.queue[k] == s.queue[k + 1];
      forall i, j | 0 <= i < j < |s'.tasks| && Untouched(s', i) ensures Untouched(s', j) {
        assert Untouched(s, i) && Untouched(s, j) && TaskOk(s, i);
        assert i in s.queue;
      }
    }
  }

  lemma {:induction false} PutInTurn(s: State, payload: Option<int>)
    requires Inv(s) && InTurn(s)
    ensures InTurn(PutNew(s, payload))
  {
    var s' := PutNew(s, payload);
    forall i, j | 0 <= i < j < |s'.tasks| && Untouched(s', i) ensures Untouched(s', j) {
      assert Untouched(s, i) && (j < |s.tasks| ==> Untouched(s, j));
    }
  }

  lemma {:induction false} WorkInTurn(s: State, w: nat, outcome: Outcome)
    requires Inv(s) && InTurn(s) && w < |s.workers| && !s.workers[w].Getting?
    ensures InTurn(WorkerStep(s, w, outcome))
  {
    var s' := WorkerStep(s, w, outcome);
    assert WorkerOk(s, w);
    forall i, j | 0 <= i < j < |s'.tasks| && Untouched(s', i) ensures Untouched(s', j) {
      assert Untouched(s, i) && Untouched(s, j);
    }
  }

  lemma {:induction false} SameTurn(s: State, s': State)
    requires |s.fate| == |s.tasks| && InTurn(s) && s' == s.(stopper := s'.stopper)
    ensures InTurn(s')
  {
    forall i, j | 0 <= i < j < |s'.tasks| && Untouched(s', i) ensures Untouched(s', j) {
      assert Untouched(s, i) && Untouched(s, j);
    }
  }

  lemma {:induction false} StepInTurn(s: State, a: Action)
    requires Inv(s) && InTurn(s)
    ensures InTurn(Step(s, a))
  {
    match a
    case Submit(payload) => PutInTurn(s, payload);
    case Stop => {
      PutInTurn(s, None);
      SameTurn(if |Step(s, a).tasks| > |s.tasks| then PutNew(s, None) else s, Step(s, a));
    }
    case Work(w, outcome) =>
      if w < |s.workers| {
        if s.workers[w].Getting? { GetInTurn(s, w, outcome); } else { WorkInTurn(s, w, outcome); }
      }
  }

  /** In every interleaving tasks are taken in the order in which they were put: when one has been taken, so has
      every earlier one; only retries come back behind. */
  lemma {:induction false} FirstComeFirstServed(workers: nat, maxRetries: int, schedule: seq<Action>, i: TaskId,
                                                j: TaskId)
    requires i < j < |Run(workers, maxRetries, schedule).tasks|
    ensures var s := Run(workers, maxRetries, schedule); !Untouched(s, j) ==> !Untouched(s, i)
    ensures InTurn(Run(workers, maxRetries, schedule))
  {
    RunInTurn(workers, maxRetries, schedule);
  }

  lemma {:induction false} RunInTurn(workers: nat, maxRetries: int, schedule: seq<Action>)
    ensures InTurn(Run(workers, maxRetries, schedule))
  {
    if schedule != [] {
      var before := schedule[..|schedule| - 1];
      RunInTurn(workers, maxRetries, before);
      RunInv(workers, maxRetries, before);
      StepInTurn(Run(workers, maxRetries, before), schedule[|schedule| - 1]);
    }
  }
}
