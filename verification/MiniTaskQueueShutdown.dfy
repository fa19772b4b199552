/**
 When stop(wait=True) of language/python/mini-runtime/mini_framework/mini_task_queue.py can return.

 A submitted None is taken for a sentinel, and so ends a worker, also before stop is called.  What is
 queued behind as many of them as there are workers is never taken out, and join waits for it.
*/
module MiniTaskQueueShutdown {
  import opened MiniTaskQueue
  import opened Wrappers

  function RunFrom(s: State, more: seq<Action>): (r: State)
    requires |s.fate| == |s.tasks|
    ensures |r.fate| == |r.tasks|
    decreases |more|
  {
    if more == [] then s else RunFrom(Step(s, more[0]), more[1..])
  }

  predicate NoSubmits(more: seq<Action>) {
    forall k :: 0 <= k < |more| ==> !more[k].Submit?
  }

  /** The threads can be scheduled, and the handlers can behave, so that stop returns. */
  ghost predicate CanReturn(s: State)
    requires |s.fate| == |s.tasks|
  {
    exists more :: NoSubmits(more) && RunFrom(s, more).stopper.Returned?
  }

  // ----- the condition -----

  /** Whether the worker that takes this task out ends. */
  predicate Ends(tasks: seq<Task>, id: TaskId) {
    id < |tasks| && tasks[id].payload == None && tasks[id].attempts == 0
  }

  function Kinds(s: State): seq<bool> {
    seq(|s.queue|, i requires 0 <= i < |s.queue| => Ends(s.tasks, s.queue[i]))
  }

  function Nones(kinds: seq<bool>): nat {
    multiset(kinds)[true]
  }

  function Alive(w: Worker): nat {
    if w.Exiting? || w.Dead? then 0 else 1
  }

  function Live(s: State): nat {
    Sum(s.workers, Alive)
  }

  function Again(w: Worker): nat {
    if w.Retrying? then 1 else 0
  }

  predicate Retries(s: State) {
    Sum(s.workers, Again) > 0
  }

  /** There is a worker for each None queued, and one more for a task behind them or still to be put there. */
  ghost predicate Suffice(kinds: seq<bool>, retries: bool, live: nat) {
    && Nones(kinds) <= live
    && (retries ==> Nones(kinds) < live)
    && forall i :: 0 <= i < |kinds| && !kinds[i] ==> Nones(kinds[..i]) < live
  }

  ghost predicate WorkersSuffice(s: State) {
    Suffice(Kinds(s), Retries(s), Live(s))
  }

  predicate Waiting(s: State) {
    s.stopper.NotCalled? || s.stopper.Joining?
  }

  /** The workers it takes to empty the queue. */
  function Need(kinds: seq<bool>, retries: bool): nat {
    if kinds == [] then if retries then 1 else 0
    else if kinds[0] then 1 + Need(kinds[1..], retries)
    else if Need(kinds[1..], retries) == 0 then 1 else Need(kinds[1..], retries)
  }

  lemma NonesFront(kinds: seq<bool>)
    requires kinds != []
    ensures Nones(kinds) == Nones(kinds[1..]) + if kinds[0] then 1 else 0
  {
    assert kinds == [kinds[0]] + kinds[1..];
  }

  lemma {:induction false} NeedMeans(kinds: seq<bool>, retries: bool, live: nat)
    ensures Need(kinds, retries) <= live <==> Suffice(kinds, retries, live)
  {
    if kinds != [] {
      NonesFront(kinds);
      var rest, fewer := kinds[1..], if kinds[0] then live - 1 else live;
      forall i | 0 <= i < |rest|
        ensures rest[i] == kinds[i + 1] && Nones(kinds[..i + 1]) == Nones(rest[..i]) + live - fewer
      {
        NonesFront(kinds[..i + 1]);
        assert kinds[..i + 1][1..] == rest[..i];
      }
      assert forall i :: 0 < i < |kinds| ==>
        kinds[i] == rest[i - 1] && Nones(kinds[..i]) == Nones(rest[..i - 1]) + live - fewer;
      if fewer >= 0 {
        NeedMeans(rest, retries, fewer);
      }
    }
  }

  lemma {:induction false} NeedPutBack(kinds: seq<bool>, retries: bool)
    ensures Need(kinds + [false], retries) == Need(kinds, true)
    ensures Need(kinds, false) <= Need(kinds, true)
  {
    if kinds != [] {
      assert (kinds + [false])[1..] == kinds[1..] + [false];
      NeedPutBack(kinds[1..], retries);
    }
  }

  lemma {:induction false} NeedGrows(kinds: seq<bool>, ends: bool, retries: bool)
    ensures Need(kinds + [ends], retries) >= Need(kinds, retries)
  {
    if kinds != [] {
      assert (kinds + [ends])[1..] == kinds[1..] + [ends];
      NeedGrows(kinds[1..], ends, retries);
    }
  }

  // ----- what the steps do to it -----

  function KindsAfter(s: State, w: nat): seq<bool>
    requires w < |s.workers|
  {
    if s.workers[w].Getting? && s.queue != [] then Kinds(s)[1..]
    else if s.workers[w].Retrying? then Kinds(s) + [false]
    else Kinds(s)
  }

  lemma {:induction false} WorkKinds(s: State, w: nat, outcome: Outcome)
    requires Inv(s) && w < |s.workers|
    ensures Kinds(WorkerStep(s, w, outcome)) == KindsAfter(s, w)
  {
    var s' := WorkerStep(s, w, outcome);
    assert WorkerOk(s, w);
    if Holds(s.workers[w]) != None {
      assert TaskOk(s, Holds(s.workers[w]).value);
    }
    assert |Kinds(s')| == |KindsAfter(s, w)|;
    forall i | 0 <= i < |s'.queue| ensures Kinds(s')[i] == KindsAfter(s, w)[i] {}
  }

  lemma {:induction false} WorkSum(s: State, w: nat, outcome: Outcome, f: Worker -> nat)
    requires Inv(s) && w < |s.workers|
    ensures var s' := WorkerStep(s, w, outcome);
      |s'.workers| == |s.workers| && Sum(s'.workers, f) == Sum(s.workers, f) - f(s.workers[w]) + f(s'.workers[w])
  {
    var s' := WorkerStep(s, w, outcome);
    assert s.workers[w := s.workers[w]] == s.workers;
    assert s'.workers == s.workers[w := s'.workers[w]];
    SumUpdate(s.workers, w, s'.workers[w], f);
  }

  lemma {:induction false} PutKinds(s: State, payload: Option<int>)
    requires Inv(s)
    ensures Kinds(PutNew(s, payload)) == Kinds(s) + [payload == None]
  {
    var s' := PutNew(s, payload);
    forall i | 0 <= i < |s.queue| ensures Kinds(s')[i] == Kinds(s)[i] {}
  }

  /** An unfinished worker keeps join waiting. */
  lemma {:induction false} BusyUnfinished(s: State, w: nat)
    requires Inv(s) && w < |s.workers| && Busy(s.workers[w]) == 1
    ensures s.unfinished > 0
  {
    SumAtLeast(s.workers, w, Busy);
  }

  // ----- too few workers: stop never returns -----

  /** A worker's step takes no more from the need than from the workers; r and r' tell whether a task is still
      to be put back. */
  lemma {:induction false} WorkKeepsNeed(s: State, w: nat, outcome: Outcome, r: bool, r': bool)
    requires Inv(s) && w < |s.workers| && Need(Kinds(s), r) > Live(s)
    requires if s.workers[w].Retrying? then r else r ==> r'
    ensures var s' := WorkerStep(s, w, outcome); Need(Kinds(s'), r') > Live(s')
  {
    WorkKinds(s, w, outcome);
    WorkSum(s, w, outcome, Alive);
    SumAtLeast(s.workers, w, Alive);
    NeedPutBack(Kinds(s), r');
    NeedPutBack(KindsAfter(s, w), false);
    if s.workers[w].Getting? && s.queue != [] {
      assert TaskOk(s, s.queue[0]);
      NeedPutBack(Kinds(s)[1..], false);
    }
  }

  lemma {:induction false} WorkKeepsShort(s: State, w: nat, outcome: Outcome)
    requires Inv(s) && w < |s.workers| && Need(Kinds(s), Retries(s)) > Live(s)
    ensures var s' := WorkerStep(s, w, outcome); Need(Kinds(s'), Retries(s')) > Live(s')
  {
    WorkSum(s, w, outcome, Again);
    SumAtLeast(s.workers, w, Again);
    WorkKeepsNeed(s, w, outcome, Retries(s), Retries(WorkerStep(s, w, outcome)));
  }

  lemma {:induction false} StepKeepsShort(s: State, a: Action)
    requires Inv(s) && Waiting(s) && Need(Kinds(s), Retries(s)) > Live(s)
    ensures var s' := Step(s, a); Waiting(s') && Need(Kinds(s'), Retries(s')) > Live(s')
  {
    match a
    case Submit(payload) =>
      PutKinds(s, payload);
      NeedGrows(Kinds(s), payload == None, Retries(s));
    case Work(w, outcome) =>
      if w < |s.workers| { WorkKeepsShort(s, w, outcome); }
    case Stop =>
      if s.unfinished == 0 && Retries(s) { RetryIsBusy(s.workers); }
  }

  lemma {:induction false} RetryIsBusy(workers: seq<Worker>)
    ensures Sum(workers, Again) <= Sum(workers, Busy)
  {
    if workers != [] { RetryIsBusy(workers[..|workers| - 1]); }
  }

  lemma {:induction false} ShortNeverReturns(s: State, more: seq<Action>)
    requires Inv(s) && Waiting(s) && Need(Kinds(s), Retries(s)) > Live(s)
    ensures Waiting(RunFrom(s, more))
    decreases |more|
  {
    if more != [] {
      StepKeepsShort(s, more[0]);
      StepInv(s, more[0]);
      ShortNeverReturns(Step(s, more[0]), more[1..]);
    }
  }

  // ----- enough workers: stop can return -----

  /** The sentinels queued and still to be put are enough for the workers alive. */
  predicate SentinelsLeft(s: State) {
    match s.stopper
    case Putting(_, n) => n <= |s.workers| && Nones(Kinds(s)) + (|s.workers| - n) >= Live(s)
    case JoiningWorkers(_) => Nones(Kinds(s)) >= Live(s)
    case _ => true
  }

  lemma {:induction false} LiveAtMost(workers: seq<Worker>)
    ensures Sum(workers, Alive) <= |workers|
  {
    if workers != [] { LiveAtMost(workers[..|workers| - 1]); }
  }

  predicate TakesNone(s: State, w: nat)
    requires w < |s.workers|
  {
    s.workers[w].Getting? && s.queue != [] && Ends(s.tasks, s.queue[0])
  }

  lemma {:induction false} NonesAfter(s: State, w: nat)
    requires w < |s.workers|
    ensures Nones(KindsAfter(s, w)) == Nones(Kinds(s)) - if TakesNone(s, w) then 1 else 0
  {
    var kinds := Kinds(s);
    if kinds != [] { NonesFront(kinds); }
  }

  lemma AliveAfter(s: State, w: nat, outcome: Outcome)
    requires w < |s.workers| && |s.fate| == |s.tasks|
    ensures var s' := WorkerStep(s, w, outcome);
      var ended := Alive(s.workers[w]) - Alive(s'.workers[w]) - if TakesNone(s, w) then 1 else 0;
      |s'.workers| == |s.workers| && 0 <= ended <= if outcome == Aborts then 1 else 0
  {
  }

  /** Taking out a None takes a worker with it; only a handler that aborts ends one beyond that. */
  lemma {:induction false} WorkEnds(s: State, w: nat, outcome: Outcome)
    requires Inv(s) && w < |s.workers|
    ensures var s' := WorkerStep(s, w, outcome);
      var ended := Nones(Kinds(s')) - Live(s') - (Nones(Kinds(s)) - Live(s));
      |s'.workers| == |s.workers| && 0 <= ended <= if outcome == Aborts then 1 else 0
  {
    WorkKinds(s, w, outcome);
    NonesAfter(s, w);
    WorkSum(s, w, outcome, Alive);
    AliveAfter(s, w, outcome);
  }

  lemma {:induction false} StepSentinels(s: State, a: Action)
    requires Inv(s) && SentinelsLeft(s)
    ensures SentinelsLeft(Step(s, a))
  {
    match a
    case Submit(payload) => PutKinds(s, payload);
    case Work(w, outcome) => if w < |s.workers| { WorkEnds(s, w, outcome); }
    case Stop =>
      PutKinds(s, None);
      LiveAtMost(s.workers);
      assert Kinds(StopStep(s)) == if s.stopper.Putting? && s.stopper.sentinels < |s.workers| then
        Kinds(PutNew(s, None)) else Kinds(s);
  }

  lemma {:induction false} RunSentinels(workers: nat, maxRetries: int, schedule: seq<Action>)
    ensures SentinelsLeft(Run(workers, maxRetries, schedule))
  {
    if schedule != [] {
      var before := schedule[..|schedule| - 1];
      RunSentinels(workers, maxRetries, before);
      RunInv(workers, maxRetries, before);
      StepSentinels(Run(workers, maxRetries, before), schedule[|schedule| - 1]);
    }
  }

  /** Nothing stands in the way of stop returning. */
  ghost predicate Clear(s: State) {
    Inv(s) && SentinelsLeft(s) && (Waiting(s) ==> Need(Kinds(s), Retries(s)) <= Live(s))
  }

  function Effort(w: Worker): nat {
    match w
    case Getting => 0
    case Handling(_) => 4
    case Retrying(_) => 7
    case Burying(_) => 2
    case Finishing => 1
    case Exiting => 1
    case Dead => 0
  }

  function StopEffort(s: State): nat {
    match s.stopper
    case NotCalled => 6 * |s.workers| + 4
    case Joining(_) => 6 * |s.workers| + 3
    case Putting(_, n) => if n < |s.workers| then 6 * (|s.workers| - n) + 2 else 2
    case JoiningWorkers(_) => 1
    case Returned(_, _) => 0
  }

  /** What is left to do, if no handler fails any more. */
  function Left(s: State): nat {
    5 * |s.queue| + Sum(s.workers, Effort) + StopEffort(s)
  }

  predicate CanWork(s: State, w: nat) {
    w < |s.workers| && !s.workers[w].Dead? && (s.workers[w].Getting? ==> s.queue != [])
  }

  lemma {:induction false} WorkGoesOn(s: State, w: nat)
    requires Inv(s) && CanWork(s, w)
    ensures Left(WorkerStep(s, w, Returns)) < Left(s)
  {
    if Busy(s.workers[w]) == 1 { BusyUnfinished(s, w); }
    if Holds(s.workers[w]) != None {
      assert WorkerOk(s, w);
    } else if s.workers[w].Getting? {
      assert TaskOk(s, s.queue[0]);
    }
    WorkSum(s, w, Returns, Effort);
  }

  lemma {:induction false} WorkKeepsEnough(s: State, w: nat)
    requires Inv(s) && CanWork(s, w) && Need(Kinds(s), Retries(s)) <= Live(s)
    ensures var s' := WorkerStep(s, w, Returns); Need(Kinds(s'), Retries(s')) <= Live(s')
  {
    var s' := WorkerStep(s, w, Returns);
    WorkKinds(s, w, Returns);
    WorkSum(s, w, Returns, Alive);
    WorkSum(s, w, Returns, Again);
    NeedPutBack(Kinds(s), Retries(s'));
    if s.workers[w].Getting? {
      assert TaskOk(s, s.queue[0]);
    }
  }

  lemma {:induction false} WorkClear(s: State, w: nat)
    requires Clear(s) && CanWork(s, w)
    ensures Clear(WorkerStep(s, w, Returns))
  {
    StepInv(s, Work(w, Returns));
    StepSentinels(s, Work(w, Returns));
    if Waiting(s) {
      WorkKeepsEnough(s, w);
    }
  }

  lemma {:induction false} SumZero(workers: seq<Worker>, f: Worker -> nat)
    requires forall w :: 0 <= w < |workers| ==> f(workers[w]) == 0
    ensures Sum(workers, f) == 0
  {
    if workers != [] { SumZero(workers[..|workers| - 1], f); }
  }

  ghost predicate NoneCanWork(s: State) {
    forall w :: 0 <= w < |s.workers| ==> !CanWork(s, w)
  }

  /** When no worker has anything to do, join returns, and the workers that stop waits for have ended. */
  lemma {:induction false} Idle(s: State)
    requires Clear(s) && NoneCanWork(s)
    ensures Waiting(s) ==> s.unfinished == 0
    ensures s.stopper.JoiningWorkers? ==> forall w :: 0 <= w < |s.workers| ==> s.workers[w] == Dead
  {
    forall w | 0 <= w < |s.workers| ensures Busy(s.workers[w]) == 0 { assert !CanWork(s, w); }
    SumZero(s.workers, Busy);
    if Waiting(s) && s.queue != [] {
      forall w | 0 <= w < |s.workers| ensures Alive(s.workers[w]) == 0 { assert !CanWork(s, w); }
      SumZero(s.workers, Alive);
    }
    if s.stopper.JoiningWorkers? {
      forall w | 0 <= w < |s.workers| ensures s.workers[w] == Dead {
        assert !CanWork(s, w);
        if s.workers[w].Getting? {
          SumAtLeast(s.workers, w, Alive);
          assert false;
        }
      }
    }
  }

  lemma {:induction false} StopGoesOn(s: State)
    requires Clear(s) && NoneCanWork(s) && !s.stopper.Returned?
    ensures Clear(StopStep(s)) && Left(StopStep(s)) < Left(s)
  {
    Idle(s);
    StepInv(s, Stop);
    StepSentinels(s, Stop);
    if s.stopper.NotCalled? {
      assert Kinds(StopStep(s)) == Kinds(s);
    }
  }

  lemma {:induction false} GoesOn(s: State) returns (a: Action)
    requires Clear(s) && !s.stopper.Returned?
    ensures a == Stop || (a.Work? && a.outcome == Returns && CanWork(s, a.w))
    ensures Clear(Step(s, a)) && Left(Step(s, a)) < Left(s)
  {
    if NoneCanWork(s) {
      a := Stop;
      StopGoesOn(s);
    } else {
      var w :| 0 <= w < |s.workers| && CanWork(s, w);
      a := Work(w, Returns);
      WorkClear(s, w);
      WorkGoesOn(s, w);
    }
  }

  lemma {:induction false} ClearReturns(s: State) returns (more: seq<Action>)
    requires Clear(s)
    ensures NoSubmits(more) && RunFrom(s, more).stopper.Returned?
    decreases Left(s)
  {
    if s.stopper.Returned? {
      more := [];
    } else {
      var a := GoesOn(s);
      var rest := ClearReturns(Step(s, a));
      more := [a] + rest;
      assert more[1..] == rest;
    }
  }

  // ----- the results -----

  /** From any reachable state, and without more submissions, stop can be made to return exactly when the
      tasks it still has to wait for have workers enough: fewer Nones ahead of each than workers alive.
      If not, it never returns, whatever the threads and the handlers do and whatever is submitted. */
  lemma {:induction false} StopReturnsExactly(workers: nat, maxRetries: int, schedule: seq<Action>)
    ensures var s := Run(workers, maxRetries, schedule);
      && (CanReturn(s) <==> (Waiting(s) ==> WorkersSuffice(s)))
      && (CanReturn(s) <==> exists more :: RunFrom(s, more).stopper.Returned?)
  {
    var s := Run(workers, maxRetries, schedule);
    RunInv(workers, maxRetries, schedule);
    RunSentinels(workers, maxRetries, schedule);
    NeedMeans(Kinds(s), Retries(s), Live(s));
    if Waiting(s) ==> WorkersSuffice(s) {
      var more := ClearReturns(s);
    } else {
      forall more ensures !RunFrom(s, more).stopper.Returned? {
        ShortNeverReturns(s, more);
      }
    }
  }

  /** The workers that a schedule may end before stop puts its sentinels. */
  function Losses(schedule: seq<Action>): nat {
    if schedule == [] then 0
    else
      var a := schedule[|schedule| - 1];
      Losses(schedule[..|schedule| - 1]) + if a == Submit(None) || (a.Work? && a.outcome == Aborts) then 1 else 0
  }

  predicate Accounted(s: State, losses: nat) {
    Waiting(s) ==> Nones(Kinds(s)) + |s.workers| - Live(s) <= losses
  }

  lemma {:induction false} StepAccounted(s: State, a: Action, losses: nat)
    requires Inv(s) && Accounted(s, losses)
    ensures Accounted(Step(s, a), losses + if a == Submit(None) || (a.Work? && a.outcome == Aborts) then 1 else 0)
  {
    match a
    case Submit(payload) => PutKinds(s, payload);
    case Stop =>
      if s.stopper.NotCalled? {
        assert Kinds(StopStep(s)) == Kinds(s);
      }
    case Work(w, outcome) =>
      if w < |s.workers| {
        WorkEnds(s, w, outcome);
      }
  }

  lemma {:induction false} RunAccounted(workers: nat, maxRetries: int, schedule: seq<Action>)
    ensures var s := Run(workers, maxRetries, schedule); |s.workers| == workers && Accounted(s, Losses(schedule))
  {
    if schedule == [] {
      AllAlive(workers);
    } else {
      var before := schedule[..|schedule| - 1];
      RunAccounted(workers, maxRetries, before);
      RunInv(workers, maxRetries, before);
      StepAccounted(Run(workers, maxRetries, before), schedule[|schedule| - 1], Losses(before));
    }
  }

  lemma {:induction false} AllAlive(n: nat)
    ensures Sum(seq(n, _ => Getting), Alive) == n
  {
    if n > 0 {
      assert seq(n, _ => Getting)[..n - 1] == seq(n - 1, _ => Getting);
      AllAlive(n - 1);
    }
  }

  /** With fewer submissions of None than workers, and no handler that ends its worker, stop can return
      from wherever the threads have got to. */
  lemma {:induction false} FewNonesReturn(workers: nat, maxRetries: int, schedule: seq<Action>)
    requires Losses(schedule) < workers
    ensures CanReturn(Run(workers, maxRetries, schedule))
  {
    var s := Run(workers, maxRetries, schedule);
    RunAccounted(workers, maxRetries, schedule);
    forall i | 0 <= i < |Kinds(s)| ensures Nones(Kinds(s)[..i]) <= Nones(Kinds(s)) {
      assert Kinds(s) == Kinds(s)[..i] + Kinds(s)[i..];
    }
    StopReturnsExactly(workers, maxRetries, schedule);
  }

  /** Without a live worker, an unfinished task keeps stop waiting for ever, even if more is submitted. */
  lemma {:induction false} NoWorkersNoShutdown(s: State, more: seq<Action>)
    requires Inv(s) && s.stopper.Joining? && s.unfinished > 0
    requires forall w :: 0 <= w < |s.workers| ==> s.workers[w] == Dead
    ensures RunFrom(s, more).stopper == s.stopper
    decreases |more|
  {
    if more != [] {
      StepInv(s, more[0]);
      NoWorkersNoShutdown(Step(s, more[0]), more[1..]);
    }
  }

  lemma {:induction false} RunMore(workers: nat, maxRetries: int, schedule: seq<Action>, a: Action)
    ensures Run(workers, maxRetries, schedule + [a]) == Step(Run(workers, maxRetries, schedule), a)
  {
    assert (schedule + [a])[..|schedule|] == schedule;
  }

  /** One worker, a None and then a payload: stop never returns, and the payload is never handled. */
  lemma {:induction false} NoneEndsTheOnlyWorker(maxRetries: int, payload: int, more: seq<Action>)
    ensures var s := Run(1, maxRetries,
      [Submit(None), Submit(Some(payload)), Work(0, Returns), Work(0, Returns), Stop]);
      && s.workers == [Dead] && s.unfinished == 1 && s.queue == [1] && s.fate == [Consumed, InQueue]
      && RunFrom(s, more).stopper == Joining(2)
  {
    var s0 := New(1, maxRetries);
    assert s0.workers == [Getting];
    var a: seq<Action> := [];
    RunMore(1, maxRetries, a, Submit(None));
    a := a + [Submit(None)];
    RunMore(1, maxRetries, a, Submit(Some(payload)));
    a := a + [Submit(Some(payload))];
    RunMore(1, maxRetries, a, Work(0, Returns));
    a := a + [Work(0, Returns)];
    RunMore(1, maxRetries, a, Work(0, Returns));
    a := a + [Work(0, Returns)];
    RunMore(1, maxRetries, a, Stop);
    a := a + [Stop];
    assert a == [Submit(None), Submit(Some(payload)), Work(0, Returns), Work(0, Returns), Stop];
    var s := Run(1, maxRetries, a);
    assert s.workers == [Dead];
    RunInv(1, maxRetries, a);
    NoWorkersNoShutdown(s, more);
  }
}
