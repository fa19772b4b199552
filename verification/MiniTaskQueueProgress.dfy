/**
 When stop(wait=True) of language/python/mini-runtime/mini_framework/mini_task_queue.py returns however the
 threads are scheduled and however often handlers raise.

 A task that is put back for a retry goes behind all that is queued, so one that can still be retried needs a
 worker beyond the Nones queued anywhere.
*/
module MiniTaskQueueProgress {
  import opened MiniTaskQueue
  import opened MiniTaskQueueShutdown
  import opened Wrappers

  /** Anything but a submission or a handler that ends its worker. */
  predicate Allowed(a: Action) {
    !a.Submit? && !(a.Work? && a.outcome == Aborts)
  }

  /** Every step is allowed and changes the state: no thread is scheduled that can only wait. */
  predicate Changes(s: State, more: seq<Action>)
    requires |s.fate| == |s.tasks|
    decreases |more|
  {
    more == [] || (Allowed(more[0]) && Step(s, more[0]) != s && Changes(Step(s, more[0]), more[1..]))
  }

  /** No allowed step changes the state. */
  ghost predicate Stuck(s: State)
    requires |s.fate| == |s.tasks|
  {
    forall a :: Allowed(a) ==> Step(s, a) == s
  }

  // ----- every run ends -----

  function TryLeft(t: Task, limit: nat): nat {
    if t.attempts <= limit then limit + 1 - t.attempts else 0
  }

  function Tries(tasks: seq<Task>, limit: nat): nat {
    if tasks == [] then 0 else Tries(tasks[..|tasks| - 1], limit) + TryLeft(tasks[|tasks| - 1], limit)
  }

  lemma {:induction false} TriesUpdate(tasks: seq<Task>, i: nat, t: Task, limit: nat)
    requires i < |tasks|
    ensures Tries(tasks[i := t], limit) == Tries(tasks, limit) - TryLeft(tasks[i], limit) + TryLeft(t, limit)
  {
    var n := |tasks| - 1;
    if i < n {
      assert tasks[i := t][..n] == tasks[..n][i := t];
      TriesUpdate(tasks[..n], i, t, limit);
    } else {
      assert tasks[i := t][..n] == tasks[..n];
    }
  }

  /** What k puts of a sentinel may still cost. */
  function Puts(k: nat, limit: nat): nat {
    if k == 0 then 0 else Puts(k - 1, limit) + 10 * (limit + 1) + 6
  }

  function Ahead(s: State): nat {
    match s.stopper
    case NotCalled => Puts(|s.workers|, Limit(s)) + 4
    case Joining(_) => Puts(|s.workers|, Limit(s)) + 3
    case Putting(_, n) => if n < |s.workers| then Puts(|s.workers| - n, Limit(s)) + 2 else 2
    case JoiningWorkers(_) => 1
    case Returned(_, _) => 0
  }

  /** The steps that can still change the state, failing attempts included, are at most these. */
  function Bound(s: State): nat {
    10 * Tries(s.tasks, Limit(s)) + 5 * |s.queue| + Sum(s.workers, Effort) + Ahead(s)
  }

  lemma {:induction false} RaiseLowers(s: State, w: nat)
    requires Inv(s) && w < |s.workers| && s.workers[w].Handling?
    ensures Bound(WorkerStep(s, w, Raises)) < Bound(s)
  {
    var id := s.workers[w].id;
    assert WorkerOk(s, w);
    TriesUpdate(s.tasks, id, WorkerStep(s, w, Raises).tasks[id], Limit(s));
    WorkSum(s, w, Raises, Effort);
  }

  lemma OutcomeIrrelevant(s: State, w: nat, outcome: Outcome)
    requires |s.fate| == |s.tasks| && w < |s.workers| && outcome != Aborts && WorkerStep(s, w, outcome) != s
    requires s.workers[w].Handling? ==> outcome == Returns
    ensures CanWork(s, w) && WorkerStep(s, w, outcome) == WorkerStep(s, w, Returns)
    ensures var s' := WorkerStep(s, w, Returns);
      s'.tasks == s.tasks && s'.stopper == s.stopper && s'.maxRetries == s.maxRetries && |s'.workers| == |s.workers|
  {
  }

  lemma {:induction false} WorkLowers(s: State, w: nat, outcome: Outcome)
    requires Inv(s) && w < |s.workers| && outcome != Aborts && WorkerStep(s, w, outcome) != s
    ensures Bound(WorkerStep(s, w, outcome)) < Bound(s)
  {
    if s.workers[w].Handling? && outcome == Raises {
      RaiseLowers(s, w);
    } else {
      OutcomeIrrelevant(s, w, outcome);
      WorkGoesOn(s, w);
    }
  }

  lemma {:induction false} TriesGrow(tasks: seq<Task>, t: Task, limit: nat)
    ensures Tries(tasks + [t], limit) == Tries(tasks, limit) + TryLeft(t, limit)
  {
    assert (tasks + [t])[..|tasks|] == tasks;
  }

  lemma {:induction false} StopLowers(s: State)
    requires SentinelsLeft(s) && StopStep(s) != s
    ensures Bound(StopStep(s)) < Bound(s)
  {
    TriesGrow(s.tasks, Task(None, 0), Limit(s));
  }

  lemma {:induction false} ChangeLowers(s: State, a: Action)
    requires Inv(s) && SentinelsLeft(s) && Allowed(a) && Step(s, a) != s
    ensures Bound(Step(s, a)) < Bound(s)
  {
    if a.Stop? { StopLowers(s); } else { WorkLowers(s, a.w, a.outcome); }
  }

  /** Without submissions and aborts, every run of steps that change anything is bounded. */
  lemma {:induction false} ChangesBounded(s: State, more: seq<Action>)
    requires Inv(s) && SentinelsLeft(s) && Changes(s, more)
    ensures |more| <= Bound(s)
    decreases |more|
  {
    if more != [] {
      ChangeLowers(s, more[0]);
      StepInv(s, more[0]);
      StepSentinels(s, more[0]);
      ChangesBounded(Step(s, more[0]), more[1..]);
    }
  }

  /** And can be continued until nothing changes any more. */
  lemma {:induction false} RunToStuck(s: State) returns (more: seq<Action>)
    requires Inv(s) && SentinelsLeft(s)
    ensures Changes(s, more) && Stuck(RunFrom(s, more))
    decreases Bound(s)
  {
    if Stuck(s) {
      more := [];
    } else {
      var a :| Allowed(a) && Step(s, a) != s;
      ChangeLowers(s, a);
      StepInv(s, a);
      StepSentinels(s, a);
      var rest := RunToStuck(Step(s, a));
      more := [a] + rest;
      assert more[1..] == rest;
    }
  }

  // ----- when it ends with stop returned -----

  /** A task in play with an attempt left after the next. */
  predicate Retriable(s: State, i: TaskId)
    requires |s.fate| == |s.tasks|
  {
    && i < |s.tasks| && s.tasks[i].payload != None && s.tasks[i].attempts + 1 <= s.maxRetries
    && match s.fate[i]
       case InQueue => true
       case With(w) => w < |s.workers| && s.workers[w] == Handling(i)
       case _ => false
  }

  ghost predicate MayRetry(s: State)
    requires |s.fate| == |s.tasks|
  {
    Retries(s) || exists i :: Retriable(s, i)
  }

  /** There are workers enough even if every handler raises. */
  ghost predicate WorkersAlwaysSuffice(s: State)
    requires |s.fate| == |s.tasks|
  {
    Suffice(Kinds(s), MayRetry(s), Live(s))
  }

  lemma {:induction false} RetriableBefore(s: State, w: nat, outcome: Outcome, i: TaskId)
    requires Inv(s) && w < |s.workers| && Retriable(WorkerStep(s, w, outcome), i)
    ensures Retriable(s, i) || s.workers[w].Retrying?
  {
    assert WorkerOk(s, w) && TaskOk(s, i);
    if s.workers[w].Getting? && s.queue != [] {
      assert TaskOk(s, s.queue[0]);
    }
  }

  lemma {:induction false} MayRetryShrinks(s: State, w: nat, outcome: Outcome)
    requires Inv(s) && w < |s.workers| && MayRetry(WorkerStep(s, w, outcome))
    ensures MayRetry(s)
  {
    var s' := WorkerStep(s, w, outcome);
    WorkSum(s, w, outcome, Again);
    SumAtLeast(s.workers, w, Again);
    if !Retries(s) {
      if Retries(s') {
        assert WorkerOk(s, w) && TaskOk(s, s.workers[w].id);
        assert Retriable(s, s.workers[w].id);
      } else {
        var i :| Retriable(s', i);
        RetriableBefore(s, w, outcome, i);
      }
    }
  }

  lemma {:induction false} NeedLessRetry(kinds: seq<bool>, r: bool, r': bool)
    requires r' ==> r
    ensures Need(kinds, r') <= Need(kinds, r)
  {
    NeedPutBack(kinds, r);
  }

  lemma {:induction false} WorkKeepsEnoughFor(s: State, w: nat, outcome: Outcome, r: bool, r': bool)
    requires Inv(s) && w < |s.workers| && outcome != Aborts && Need(Kinds(s), r) <= Live(s)
    requires (r' ==> r) && (s.workers[w].Retrying? ==> r)
    ensures var s' := WorkerStep(s, w, outcome); Need(Kinds(s'), r') <= Live(s')
  {
    WorkKinds(s, w, outcome);
    WorkSum(s, w, outcome, Alive);
    NeedLessRetry(Kinds(s), r, r');
    NeedPutBack(Kinds(s), r');
    if s.workers[w].Getting? && s.queue != [] {
      assert TaskOk(s, s.queue[0]);
    }
  }

  lemma {:induction false} WorkKeepsAlways(s: State, w: nat, outcome: Outcome)
    requires Inv(s) && w < |s.workers| && outcome != Aborts && Need(Kinds(s), MayRetry(s)) <= Live(s)
    ensures var s' := WorkerStep(s, w, outcome); Need(Kinds(s'), MayRetry(s')) <= Live(s')
  {
    var s' := WorkerStep(s, w, outcome);
    SumAtLeast(s.workers, w, Again);
    if MayRetry(s') { MayRetryShrinks(s, w, outcome); }
    WorkKeepsEnoughFor(s, w, outcome, MayRetry(s), MayRetry(s'));
  }

  ghost predicate AlwaysClear(s: State) {
    Inv(s) && SentinelsLeft(s) && (Waiting(s) ==> Need(Kinds(s), MayRetry(s)) <= Live(s))
  }

  lemma {:induction false} StepKeepsAlways(s: State, a: Action)
    requires AlwaysClear(s) && Allowed(a)
    ensures AlwaysClear(Step(s, a))
  {
    StepInv(s, a);
    StepSentinels(s, a);
    var s' := Step(s, a);
    if Waiting(s') {
      if a.Stop? {
        assert Kinds(s') == Kinds(s);
        assert forall i :: Retriable(s', i) ==> Retriable(s, i);
        NeedLessRetry(Kinds(s), MayRetry(s), MayRetry(s'));
      } else if a.w < |s.workers| {
        WorkKeepsAlways(s, a.w, a.outcome);
      }
    }
  }

  lemma {:induction false} RunKeepsAlways(s: State, more: seq<Action>)
    requires AlwaysClear(s) && Changes(s, more)
    ensures AlwaysClear(RunFrom(s, more))
    decreases |more|
  {
    if more != [] {
      StepKeepsAlways(s, more[0]);
      RunKeepsAlways(Step(s, more[0]), more[1..]);
    }
  }

  /** With enough workers the only state in which nothing changes is the one stop has returned in. */
  lemma {:induction false} StuckReturned(s: State)
    requires AlwaysClear(s) && Stuck(s)
    ensures s.stopper.Returned?
  {
    NeedLessRetry(Kinds(s), MayRetry(s), Retries(s));
    if !s.stopper.Returned? {
      var a := GoesOn(s);
      assert false;
    }
  }

  // ----- too few workers if a handler raises: a run in which stop never returns -----

  lemma {:induction false} RunFromJoin(s: State, a: seq<Action>, b: seq<Action>)
    requires |s.fate| == |s.tasks|
    requires Changes(s, a) && Changes(RunFrom(s, a), b)
    ensures Changes(s, a + b) && RunFrom(s, a + b) == RunFrom(RunFrom(s, a), b)
    decreases |a|
  {
    if a == [] {
      assert a + b == b;
    } else {
      assert (a + b)[1..] == a[1..] + b;
      RunFromJoin(Step(s, a[0]), a[1..], b);
    }
  }

  lemma {:induction false} GoesOnWaiting(s: State, a: Action, i: TaskId)
    requires Clear(s) && Waiting(s) && Retriable(s, i) && s.fate[i].InQueue? && Need(Kinds(s), true) > Live(s)
    requires a == Stop || (a.Work? && a.outcome == Returns && CanWork(s, a.w))
    requires Left(Step(s, a)) < Left(s)
    ensures var s' := Step(s, a); Waiting(s') && Retriable(s', i) && Need(Kinds(s'), true) > Live(s')
  {
    assert TaskOk(s, i);
    if a == Stop {
      assert s.unfinished > 0 && Kinds(StopStep(s)) == Kinds(s);
    } else {
      WorkKeepsNeed(s, a.w, Returns, true, true);
      WorkKeepsRetriable(s, a.w, i);
    }
  }

  lemma {:induction false} WorkKeepsRetriable(s: State, w: nat, i: TaskId)
    requires Inv(s) && CanWork(s, w) && Retriable(s, i) && s.fate[i].InQueue?
    ensures Retriable(WorkerStep(s, w, Returns), i)
  {
    assert WorkerOk(s, w) && TaskOk(s, i);
    if s.workers[w].Getting? {
      assert TaskOk(s, s.queue[0]);
    }
  }

  /** Everything ahead of a retriable task is worked off, and then its handler raises. */
  lemma {:induction false} ReachRetry(s: State, i: TaskId) returns (more: seq<Action>)
    requires Clear(s) && Waiting(s) && Retriable(s, i) && Need(Kinds(s), true) > Live(s)
    ensures Changes(s, more) && Inv(RunFrom(s, more)) && SentinelsLeft(RunFrom(s, more))
    ensures var s' := RunFrom(s, more); Waiting(s') && Need(Kinds(s'), Retries(s')) > Live(s')
    decreases Left(s)
  {
    if s.fate[i].With? {
      var a := Work(s.fate[i].w, Raises);
      RaiseFails(s, i);
      more := [a];
      assert more[1..] == [] && RunFrom(Step(s, a), []) == Step(s, a);
    } else {
      var a := GoesOn(s);
      GoesOnWaiting(s, a, i);
      var rest := ReachRetry(Step(s, a), i);
      more := [a] + rest;
      assert more[1..] == rest;
    }
  }

  lemma {:induction false} RaiseFails(s: State, i: TaskId)
    requires Clear(s) && Waiting(s) && Retriable(s, i) && s.fate[i].With? && Need(Kinds(s), true) > Live(s)
    ensures var s' := WorkerStep(s, s.fate[i].w, Raises);
      s' != s && Inv(s') && SentinelsLeft(s') && Waiting(s') && Need(Kinds(s'), Retries(s')) > Live(s')
  {
    var w := s.fate[i].w;
    StepInv(s, Work(w, Raises));
    StepSentinels(s, Work(w, Raises));
    WorkKinds(s, w, Raises);
    WorkSum(s, w, Raises, Alive);
    SumAtLeast(WorkerStep(s, w, Raises).workers, w, Again);
  }

  // ----- the result -----

  lemma {:induction false} ShortGetsStuck(s: State) returns (more: seq<Action>)
    requires Inv(s) && SentinelsLeft(s) && Waiting(s) && Need(Kinds(s), Retries(s)) > Live(s)
    ensures Changes(s, more) && Stuck(RunFrom(s, more)) && !RunFrom(s, more).stopper.Returned?
  {
    more := RunToStuck(s);
    ShortNeverReturns(s, more);
  }

  lemma {:induction false} FewGetStuck(s: State) returns (more: seq<Action>)
    requires Inv(s) && SentinelsLeft(s) && Waiting(s) && Need(Kinds(s), MayRetry(s)) > Live(s)
    ensures Changes(s, more) && Stuck(RunFrom(s, more)) && !RunFrom(s, more).stopper.Returned?
  {
    if Need(Kinds(s), Retries(s)) > Live(s) {
      more := ShortGetsStuck(s);
    } else {
      var i :| Retriable(s, i);
      var first := ReachRetry(s, i);
      var rest := ShortGetsStuck(RunFrom(s, first));
      RunFromJoin(s, first, rest);
      more := first + rest;
    }
  }

  /** Stop returns at the end of every run. */
  ghost predicate AlwaysReturns(s: State)
    requires |s.fate| == |s.tasks|
  {
    forall more :: Changes(s, more) && Stuck(RunFrom(s, more)) ==> RunFrom(s, more).stopper.Returned?
  }

  /** From any reachable state, without more submissions and handlers that abort: every run of steps that change
      the state is bounded and can be continued until none is left; and then stop has returned, however the
      threads were scheduled and whatever handlers raised, exactly when the workers alive suffice for the Nones
      queued and one more for every task that is behind them or may yet be put behind them. */
  lemma {:induction false} StopAlwaysReturnsExactly(workers: nat, maxRetries: int, schedule: seq<Action>)
    ensures var s := Run(workers, maxRetries, schedule);
      && (forall more :: Changes(s, more) ==> |more| <= Bound(s))
      && (exists more :: Changes(s, more) && Stuck(RunFrom(s, more)))
      && (AlwaysReturns(s) <==> (Waiting(s) ==> WorkersAlwaysSuffice(s)))
  {
    var s := Run(workers, maxRetries, schedule);
    RunInv(workers, maxRetries, schedule);
    RunSentinels(workers, maxRetries, schedule);
    NeedMeans(Kinds(s), MayRetry(s), Live(s));
    forall more | Changes(s, more) ensures |more| <= Bound(s) {
      ChangesBounded(s, more);
    }
    var last := RunToStuck(s);
    if Waiting(s) ==> WorkersAlwaysSuffice(s) {
      forall more | Changes(s, more) && Stuck(RunFrom(s, more)) ensures RunFrom(s, more).stopper.Returned? {
        RunKeepsAlways(s, more);
        StuckReturned(RunFrom(s, more));
      }
    } else {
      var more := FewGetStuck(s);
    }
  }
}
