/**
 The saga orchestrator of engineering/backend/data-consistency/saga-pattern/impl.ts.

 A step is a name and two functions of the context: what executing it does, and what its n-th attempt at
 compensation does.  A step that fails may leave the context changed; one that times out is one that fails.
*/
module Saga {
  import opened Sequences
  import opened Wrappers

  datatype Outcome<C> = Done(ctx: C) | Threw(ctx: C, error: string)

  datatype Step<!C> = Step(name: string, execute: C -> Outcome<C>, compensate: (C, nat) -> Outcome<C>)

  datatype Status = Running | Completed | Compensating | Failed

  datatype StepResult = StepResult(stepName: string, success: bool)

  datatype SagaResult = SagaResult(status: Status, steps: seq<StepResult>, completed: seq<string>,
    compensated: seq<string>, finalError: Option<string>)

  // ----- forward -----

  /** How far the first n steps get: done of them completed, and then an error or not. */
  datatype Progress<C> = Progress(done: nat, ctx: C, error: Option<string>)

  function Forward<C>(steps: seq<Step<C>>, n: nat, ctx: C): (p: Progress<C>)
    requires n <= |steps|
    ensures p.done <= n && (p.error == None ==> p.done == n) && (p.error.Some? ==> p.done < n)
  {
    if n == 0 then Progress(0, ctx, None)
    else
      var p := Forward(steps, n - 1, ctx);
      if p.error.Some? then p
      else
        match steps[n - 1].execute(p.ctx)
        case Done(c) => Progress(n, c, None)
        case Threw(c, e) => Progress(n - 1, c, Some(e))
  }

  /** The steps are executed in order, each from the context that the one before left, until one throws. */
  lemma {:induction false} ForwardExactly<C>(steps: seq<Step<C>>, n: nat, ctx: C) returns (ctxs: seq<C>)
    requires n <= |steps|
    ensures var p := Forward(steps, n, ctx);
      && |ctxs| == p.done + 1 && ctxs[0] == ctx
      && (forall i :: 0 <= i < p.done ==> steps[i].execute(ctxs[i]) == Outcome.Done(ctxs[i + 1]))
      && if p.error == None then p.done == n && ctxs[n] == p.ctx
         else p.done < n && steps[p.done].execute(ctxs[p.done]) == Threw(p.ctx, p.error.value)
  {
    ctxs := [ctx];
    if n > 0 {
      var p := Forward(steps, n - 1, ctx);
      ctxs := ForwardExactly(steps, n - 1, ctx);
      if p.error == None && steps[n - 1].execute(p.ctx).Done? {
        ctxs := ctxs + [steps[n - 1].execute(p.ctx).ctx];
      }
    }
  }

  function Names<C>(steps: seq<Step<C>>): (names: seq<string>)
    ensures |names| == |steps| && forall i :: 0 <= i < |names| ==> names[i] == steps[i].name
  {
    seq(|steps|, i requires 0 <= i < |steps| => steps[i].name)
  }

  function Successes(names: seq<string>): seq<StepResult> {
    seq(|names|, i requires 0 <= i < |names| => StepResult(names[i], true))
  }

  // ----- compensation -----

  /** The attempts at compensating one step, from attempt retries on: the context, and whether one worked. */
  function Attempts<C>(step: Step<C>, ctx: C, retries: nat, maxRetries: int): (C, bool)
    decreases maxRetries - retries
  {
    if retries > maxRetries then (ctx, false)
    else
      match step.compensate(ctx, retries)
      case Done(c) => (c, true)
      case Threw(c, _) => Attempts(step, c, retries + 1, maxRetries)
  }

  /** steps.find by name: the place of the first such step, |steps| when there is none. */
  function Find<C>(steps: seq<Step<C>>, name: string): (i: nat)
    ensures i <= |steps| && (i < |steps| ==> steps[i].name == name) && forall j :: 0 <= j < i ==> steps[j].name != name
  {
    if steps == [] then 0 else if steps[0].name == name then 0 else 1 + Find(steps[1..], name)
  }

  /** Compensation by name, in the order of names: the context, and the names for which it worked. */
  function CompensateAll<C>(steps: seq<Step<C>>, names: seq<string>, ctx: C, maxRetries: int): (C, seq<string>) {
    if names == [] then (ctx, [])
    else
      var (c, done) := CompensateOne(steps, names[0], ctx, maxRetries);
      var (c', rest) := CompensateAll(steps, names[1..], c, maxRetries);
      (c', (if done then [names[0]] else []) + rest)
  }

  function CompensateOne<C>(steps: seq<Step<C>>, name: string, ctx: C, maxRetries: int): (C, bool) {
    var i := Find(steps, name);
    if i < |steps| then Attempts(steps[i], ctx, 0, maxRetries) else (ctx, false)
  }

  // ----- which attempts are made, and when one counts -----

  /** The attempts 0, 1, .. before the last of cs threw, each from the context that the one before had left. */
  ghost predicate Tried<C>(step: Step<C>, ctx0: C, cs: seq<C>) {
    && cs != [] && cs[0] == ctx0
    && forall i {:trigger cs[i]} :: 0 <= i < |cs| - 1 ==>
      step.compensate(cs[i], i).Threw? && step.compensate(cs[i], i).ctx == cs[i + 1]
  }

  /** And the attempt after them is allowed and works. */
  ghost predicate Works<C>(step: Step<C>, ctx0: C, cs: seq<C>, maxRetries: int) {
    Tried(step, ctx0, cs) && |cs| - 1 <= maxRetries && step.compensate(cs[|cs| - 1], |cs| - 1).Done?
  }

  /** Or they are all that are allowed. */
  ghost predicate Exhausted<C>(step: Step<C>, ctx0: C, cs: seq<C>, maxRetries: int) {
    Tried(step, ctx0, cs) && |cs| - 1 == if maxRetries < 0 then 0 else maxRetries + 1
  }

  lemma {:induction false} AttemptsAfter<C>(step: Step<C>, ctx0: C, cs: seq<C>, maxRetries: int)
    requires Tried(step, ctx0, cs) && (|cs| == 1 || |cs| - 2 <= maxRetries)
    ensures Attempts(step, ctx0, 0, maxRetries) == Attempts(step, cs[|cs| - 1], |cs| - 1, maxRetries)
  {
    if |cs| > 1 {
      var before := cs[..|cs| - 1];
      forall i | 0 <= i < |before| - 1
        ensures step.compensate(before[i], i).Threw? && step.compensate(before[i], i).ctx == before[i + 1]
      {
        assert before[i] == cs[i] && before[i + 1] == cs[i + 1];
      }
      AttemptsAfter(step, ctx0, before, maxRetries);
      assert before[|before| - 1] == cs[|cs| - 2];
    }
  }

  lemma {:induction false} TryOn<C>(step: Step<C>, ctx0: C, cs: seq<C>, maxRetries: int) returns (all: seq<C>)
    requires Tried(step, ctx0, cs) && (|cs| == 1 || |cs| - 2 <= maxRetries)
    ensures Works(step, ctx0, all, maxRetries) || Exhausted(step, ctx0, all, maxRetries)
    decreases maxRetries + 2 - |cs|
  {
    var n := |cs| - 1;
    all := cs;
    if n <= maxRetries && step.compensate(cs[n], n).Threw? {
      all := TryOn(step, ctx0, cs + [step.compensate(cs[n], n).ctx], maxRetries);
    }
  }

  /** worked and ctx are what the allowed attempts come to. */
  ghost predicate Settles<C(!new)>(step: Step<C>, ctx0: C, ctx: C, worked: bool, maxRetries: int) {
    && (worked <==> exists cs :: Works(step, ctx0, cs, maxRetries))
    && (forall cs :: Works(step, ctx0, cs, maxRetries) ==> step.compensate(cs[|cs| - 1], |cs| - 1) == Done(ctx))
    && (!worked ==> exists cs :: Exhausted(step, ctx0, cs, maxRetries) && cs[|cs| - 1] == ctx)
  }

  /** What the retries come to: a compensation counts as done exactly when an attempt that is allowed works, after
      all before it threw, and the context is what that attempt leaves; if none does, all allowed have thrown,
      and it is what the last one leaves. */
  lemma {:induction false} AttemptsExactly<C(!new)>(step: Step<C>, ctx0: C, maxRetries: int)
    ensures var (ctx, worked) := Attempts(step, ctx0, 0, maxRetries); Settles(step, ctx0, ctx, worked, maxRetries)
  {
    var all := TryOn(step, ctx0, [ctx0], maxRetries);
    AttemptsAfter(step, ctx0, all, maxRetries);
    forall cs | Works(step, ctx0, cs, maxRetries)
      ensures Attempts(step, ctx0, 0, maxRetries) == (step.compensate(cs[|cs| - 1], |cs| - 1).ctx, true)
    {
      AttemptsAfter(step, ctx0, cs, maxRetries);
    }
  }

  /** names, each with the context before it and whether its compensation counts as done, and one context more. */
  ghost predicate Compensates<C(!new)>(steps: seq<Step<C>>, names: seq<string>, ctxs: seq<C>, worked: seq<bool>,
                                       maxRetries: int)
  {
    && |ctxs| == |names| + 1 && |worked| == |names|
    && forall i :: 0 <= i < |names| ==> CompensatesOne(steps, names[i], ctxs[i], ctxs[i + 1], worked[i], maxRetries)
  }

  /** The first step of that name is compensated; without one nothing happens. */
  ghost predicate CompensatesOne<C(!new)>(steps: seq<Step<C>>, name: string, ctx0: C, ctx: C, worked: bool,
                                          maxRetries: int)
  {
    var i := Find(steps, name);
    if i < |steps| then Settles(steps[i], ctx0, ctx, worked, maxRetries) else ctx == ctx0 && !worked
  }

  /** The names of which the compensation worked. */
  function Worked<T>(names: seq<T>, worked: seq<bool>): seq<T>
    requires |worked| == |names|
  {
    if names == [] then [] else (if worked[0] then [names[0]] else []) + Worked(names[1..], worked[1..])
  }

  lemma {:induction false} WorkedExactly<T>(names: seq<T>, worked: seq<bool>, name: T)
    requires |worked| == |names|
    ensures name in Worked(names, worked) <==> exists i :: 0 <= i < |names| && names[i] == name && worked[i]
  {
    if names != [] {
      WorkedExactly(names[1..], worked[1..], name);
      if name in Worked(names[1..], worked[1..]) {
        var i :| 0 <= i < |names[1..]| && names[1..][i] == name && worked[1..][i];
        assert names[i + 1] == name && worked[i + 1];
      }
      if i :| 0 <= i < |names| && names[i] == name && worked[i] {
        if i > 0 { assert names[1..][i - 1] == name && worked[1..][i - 1]; }
      }
    }
  }

  /** The names listed as compensated are exactly those for which an allowed attempt worked, in the order in which
      the compensations were made, each from the context that the one before left. */
  lemma {:induction false} CompensatedExactly<C(!new)>(steps: seq<Step<C>>, names: seq<string>, ctx0: C,
                                                       maxRetries: int)
      returns (ctxs: seq<C>, worked: seq<bool>)
    ensures Compensates(steps, names, ctxs, worked, maxRetries) && ctxs[0] == ctx0
    ensures CompensateAll(steps, names, ctx0, maxRetries) == (ctxs[|names|], Worked(names, worked))
  {
    ctxs, worked := [ctx0], [];
    if names != [] {
      var (c, done) := CompensateOne(steps, names[0], ctx0, maxRetries);
      var i := Find(steps, names[0]);
      if i < |steps| { AttemptsExactly(steps[i], ctx0, maxRetries); }
      var cs, ws := CompensatedExactly(steps, names[1..], c, maxRetries);
      ctxs, worked := [ctx0] + cs, [done] + ws;
      forall k | 0 <= k < |names|
        ensures CompensatesOne(steps, names[k], ctxs[k], ctxs[k + 1], worked[k], maxRetries)
      {
        if k > 0 { assert names[k] == names[1..][k - 1] && ctxs[k] == cs[k - 1] && worked[k] == ws[k - 1]; }
      }
      assert worked[1..] == ws;
    }
  }

  // ----- when a failing saga undoes what it did -----

  ghost predicate EffectFreeFailures<C(!new)>(step: Step<C>) {
    forall c: C :: step.execute(c).Threw? ==> step.execute(c).ctx == c
  }

  /** After the step has been executed some attempt from the first to the last allowed one restores the
      context, and those before it leave the context alone. */
  ghost predicate Undone<C>(step: Step<C>, before: C, after: C, maxRetries: int) {
    exists n: nat :: n <= maxRetries && AttemptsWork(step, before, after, n)
  }

  ghost predicate AttemptsWork<C>(step: Step<C>, before: C, after: C, n: nat) {
    && step.compensate(after, n) == Done(before)
    && forall i {:trigger step.compensate(after, i)} :: 0 <= i < n ==>
      step.compensate(after, i).Threw? && step.compensate(after, i).ctx == after
  }

  ghost predicate Compensable<C(!new)>(step: Step<C>, maxRetries: int) {
    forall c: C :: step.execute(c).Done? ==> Undone(step, c, step.execute(c).ctx, maxRetries)
  }

  lemma {:induction false} AttemptsRestore<C>(step: Step<C>, before: C, after: C, n: nat, i: nat, maxRetries: int)
    requires i <= n <= maxRetries && AttemptsWork(step, before, after, n)
    ensures Attempts(step, after, i, maxRetries) == (before, true)
    decreases n - i
  {
    if i < n {
      assert step.compensate(after, i).Threw?;
      AttemptsRestore(step, before, after, n, i + 1, maxRetries);
    }
  }

  ghost predicate DistinctNames<C>(steps: seq<Step<C>>, n: nat)
    requires n <= |steps|
  {
    forall i, j :: 0 <= i < j < n ==> steps[i].name != steps[j].name
  }

  lemma FindsOwn<C>(steps: seq<Step<C>>, n: nat, i: nat)
    requires i < n <= |steps| && DistinctNames(steps, n)
    ensures Find(steps, steps[i].name) == i
  {
  }

  lemma NoError<C>(steps: seq<Step<C>>, n: nat, ctx: C)
    requires 0 < n <= |steps| && Forward(steps, n, ctx).error == None
    ensures Forward(steps, n - 1, ctx).error == None
    ensures steps[n - 1].execute(Forward(steps, n - 1, ctx).ctx) == Done(Forward(steps, n, ctx).ctx)
  {
  }

  /** Undoing the first n steps, the last first, restores the context they started from. */
  lemma {:induction false} UndoRestores<C(!new)>(steps: seq<Step<C>>, n: nat, ctx: C, maxRetries: int)
    requires n <= |steps| && DistinctNames(steps, n) && Forward(steps, n, ctx).error == None
    requires forall i :: 0 <= i < n ==> Compensable(steps[i], maxRetries)
    ensures CompensateAll(steps, Reversed(Names(steps[..n])), Forward(steps, n, ctx).ctx, maxRetries) ==
      (ctx, Reversed(Names(steps[..n])))
  {
    if n > 0 {
      UndoLast(steps, n, ctx, maxRetries);
      ReversedNames(steps, n);
      CompensateFront(steps, steps[n - 1].name, Reversed(Names(steps[..n - 1])), Forward(steps, n, ctx).ctx,
        maxRetries);
      NoError(steps, n, ctx);
      UndoRestores(steps, n - 1, ctx, maxRetries);
    }
  }

  lemma {:induction false} UndoLast<C(!new)>(steps: seq<Step<C>>, n: nat, ctx: C, maxRetries: int)
    requires 0 < n <= |steps| && DistinctNames(steps, n) && Forward(steps, n, ctx).error == None
    requires Compensable(steps[n - 1], maxRetries)
    ensures CompensateOne(steps, steps[n - 1].name, Forward(steps, n, ctx).ctx, maxRetries) ==
      (Forward(steps, n - 1, ctx).ctx, true)
  {
    var last, before, after := steps[n - 1], Forward(steps, n - 1, ctx).ctx, Forward(steps, n, ctx).ctx;
    NoError(steps, n, ctx);
    assert Undone(last, before, after, maxRetries);
    var k: nat :| k <= maxRetries && AttemptsWork(last, before, after, k);
    AttemptsRestore(last, before, after, k, 0, maxRetries);
    FindsOwn(steps, n, n - 1);
  }

  lemma ReversedNames<C>(steps: seq<Step<C>>, n: nat)
    requires 0 < n <= |steps|
    ensures Reversed(Names(steps[..n])) == [steps[n - 1].name] + Reversed(Names(steps[..n - 1]))
  {
  }

  lemma {:induction false} CompensateFront<C>(steps: seq<Step<C>>, name: string, rest: seq<string>, ctx: C,
                                              maxRetries: int)
    ensures var (c, done) := CompensateOne(steps, name, ctx, maxRetries);
      var (c', names) := CompensateAll(steps, rest, c, maxRetries);
      CompensateAll(steps, [name] + rest, ctx, maxRetries) == (c', (if done then [name] else []) + names)
  {
    assert ([name] + rest)[1..] == rest;
  }

  // ----- which steps are compensated -----

  /** The places of the steps whose compensation is called for the first n steps completed. */
  function Called<C>(steps: seq<Step<C>>, n: nat): (places: seq<nat>)
    requires n <= |steps|
    ensures |places| == n && forall i :: 0 <= i < n ==> places[i] == Find(steps, Reversed(Names(steps[..n]))[i])
  {
    var names := Reversed(Names(steps[..n]));
    seq(n, i requires 0 <= i < n => Find(steps, names[i]))
  }

  /** Each step completed has its own compensation called, the last first, exactly when their names are
      distinct: a step found by a name that an earlier one has is not compensated, and the earlier one is
      compensated again. */
  lemma {:induction false} CallsOwnExactly<C>(steps: seq<Step<C>>, n: nat)
    requires n <= |steps|
    ensures DistinctNames(steps, n) <==> forall i :: 0 <= i < n ==> Called(steps, n)[i] == n - 1 - i
  {
    forall i | 0 <= i < n ensures Called(steps, n)[i] == Find(steps, steps[n - 1 - i].name) {
      assert Reversed(Names(steps[..n]))[i] == steps[n - 1 - i].name;
    }
    if DistinctNames(steps, n) {
      forall i | 0 <= i < n ensures Called(steps, n)[i] == n - 1 - i {
        FindsOwn(steps, n, n - 1 - i);
      }
    } else {
      var i, j :| 0 <= i < j < n && steps[i].name == steps[j].name;
      assert Called(steps, n)[n - 1 - j] == Find(steps, steps[j].name) <= i;
    }
  }

  // ----- the code -----

  class SagaOrchestrator<C(!new)> {
    const steps: seq<Step<C>>
    const maxRetries: int
    var status: Status
    var completedStepNames: seq<string>
    var compensatedStepNames: seq<string>
    var stepResults: seq<StepResult>

    constructor (steps: seq<Step<C>>, maxRetries: int)
      ensures this.steps == steps && this.maxRetries == maxRetries && Fresh()
    {
      this.steps, this.maxRetries := steps, maxRetries;
      status, completedStepNames, compensatedStepNames, stepResults := Running, [], [], [];
    }

    /** Not executed yet. */
    ghost predicate Fresh()
      reads this
    {
      status == Running && completedStepNames == [] && compensatedStepNames == [] && stepResults == []
    }

    function BuildResult(finalError: Option<string>): SagaResult
      reads this
    {
      SagaResult(status, stepResults, completedStepNames, compensatedStepNames, finalError)
    }

    /** The attempts at one step. */
    method CompensateStep(step: Step<C>, ctx0: C) returns (ctx: C, worked: bool)
      ensures (ctx, worked) == Attempts(step, ctx0, 0, maxRetries)
      ensures Settles(step, ctx0, ctx, worked, maxRetries)
    {
      AttemptsExactly(step, ctx0, maxRetries);
      ctx, worked := ctx0, false;
      var retries := 0;
      while retries <= maxRetries
        invariant 0 <= retries
        invariant Attempts(step, ctx0, 0, maxRetries) == Attempts(step, ctx, retries, maxRetries)
      {
        match step.compensate(ctx, retries)
        case Done(c) =>
          return c, true;
        case Threw(c, _) =>
          ctx := c;
          retries := retries + 1;
      }
    }

    method Compensate(ctx0: C) returns (ctx: C)
      modifies this`status, this`compensatedStepNames
      ensures status == Failed
      ensures ctx == CompensateAll(steps, Reversed(completedStepNames), ctx0, maxRetries).0
      ensures compensatedStepNames ==
        old(compensatedStepNames) + CompensateAll(steps, Reversed(completedStepNames), ctx0, maxRetries).1
    {
      status := Compensating;
      var todo := Reversed(completedStepNames);
      ctx := ctx0;
      ghost var all := CompensateAll(steps, todo, ctx0, maxRetries);
      ghost var rest := all.1;
      while todo != []
        invariant CompensateAll(steps, todo, ctx, maxRetries) == (all.0, rest)
        invariant compensatedStepNames + rest == old(compensatedStepNames) + all.1
      {
        assert todo == [todo[0]] + todo[1..];
        CompensateFront(steps, todo[0], todo[1..], ctx, maxRetries);
        var worked;
        ctx, worked := CompensateNamed(todo[0], ctx);
        rest := CompensateAll(steps, todo[1..], ctx, maxRetries).1;
        if worked {
          Shift(compensatedStepNames, todo[0], rest);
          compensatedStepNames := compensatedStepNames + [todo[0]];
        }
        todo := todo[1..];
      }
      status := Failed;
    }

    method CompensateNamed(stepName: string, ctx0: C) returns (ctx: C, worked: bool)
      ensures (ctx, worked) == CompensateOne(steps, stepName, ctx0, maxRetries)
    {
      var i := Find(steps, stepName);
      if i == |steps| {
        return ctx0, false;
      }
      ctx, worked := CompensateStep(steps[i], ctx0);
    }

    lemma Shift<T>(a: seq<T>, x: T, b: seq<T>)
      ensures a + [x] + b == a + ([x] + b) && [] + b == b
    {
    }

    /** One step forward, with its result noted. */
    method ExecuteStep(step: Step<C>, ctx0: C) returns (ctx: C, error: Option<string>)
      modifies this`completedStepNames, this`stepResults
      ensures step.execute(ctx0) == if error.Some? then Threw(ctx, error.value) else Outcome.Done(ctx)
      ensures stepResults == old(stepResults) + [StepResult(step.name, error == None)]
      ensures completedStepNames == old(completedStepNames) + if error == None then [step.name] else []
    {
      match step.execute(ctx0)
      case Done(c) =>
        completedStepNames := completedStepNames + [step.name];
        stepResults := stepResults + [StepResult(step.name, true)];
        return c, None;
      case Threw(c, e) =>
        stepResults := stepResults + [StepResult(step.name, false)];
        return c, Some(e);
    }

    /** execute; a saga that has failed once stays as it is, and the lists only grow. */
    method Execute(ctx0: C) returns (ctx: C, result: SagaResult)
      modifies this`status, this`completedStepNames, this`compensatedStepNames, this`stepResults
      ensures result == BuildResult(result.finalError)
      ensures old(status) == Failed ==> ctx == ctx0 && result == old(BuildResult(None))
      ensures old(status) != Failed ==> Executed(steps, maxRetries, ctx0, old(BuildResult(None)), ctx, result)
    {
      ctx := ctx0;
      ghost var w := BuildResult(None);
      if status == Failed {
        return ctx, BuildResult(None);
      }
      for i := 0 to |steps|
        invariant Forward(steps, i, ctx0) == Progress(i, ctx, None)
        invariant status == w.status && compensatedStepNames == w.compensated
        invariant completedStepNames == w.completed + Names(steps[..i])
        invariant stepResults == w.steps + Successes(Names(steps[..i]))
      {
        var c, error := ExecuteStep(steps[i], ctx);
        if error.Some? {
          ghost var before := ctx;
          ctx := Compensate(c);
          result := BuildResult(error);
          assert completedStepNames + [] == completedStepNames;
          ErrorStops(steps, maxRetries, i, ctx0, w, before, c, error.value, ctx, result);
          return;
        }
        NamesNext(steps, i);
        ctx := c;
        assert Forward(steps, i + 1, ctx0) == Progress(i + 1, ctx, None);
      }
      assert steps[..|steps|] == steps;
      if status == Running {
        status := Completed;
      }
      result := BuildResult(None);
      assert Ended(steps, Progress(|steps|, ctx, None), w, ctx, result);
    }
  }

  /** What an execution that got as far as p without an error has to show; w is what the saga showed before. */
  ghost predicate Ended<C>(steps: seq<Step<C>>, p: Progress<C>, w: SagaResult, ctx: C, r: SagaResult)
    requires p.done <= |steps|
  {
    && r == SagaResult(if w.status == Running then Completed else w.status, w.steps + Successes(Names(steps[..p.done])),
                       w.completed + Names(steps[..p.done]), w.compensated, None)
    && ctx == p.ctx
  }

  /** And what one stopped by an error has to show. */
  ghost predicate Stopped<C>(steps: seq<Step<C>>, maxRetries: int, p: Progress<C>, w: SagaResult, ctx: C, r: SagaResult)
    requires p.done < |steps|
  {
    var completed := w.completed + Names(steps[..p.done]);
    var undone := CompensateAll(steps, Reversed(completed), p.ctx, maxRetries);
    && r == SagaResult(Failed, w.steps + Successes(Names(steps[..p.done])) + [StepResult(steps[p.done].name, false)],
                       completed, w.compensated + undone.1, p.error)
    && ctx == undone.0
  }

  ghost predicate Executed<C>(steps: seq<Step<C>>, maxRetries: int, ctx0: C, w: SagaResult, ctx: C, r: SagaResult) {
    var p := Forward(steps, |steps|, ctx0);
    if p.error == None then Ended(steps, p, w, ctx, r) else Stopped(steps, maxRetries, p, w, ctx, r)
  }

  lemma NamesNext<C>(steps: seq<Step<C>>, i: nat)
    requires i < |steps|
    ensures Names(steps[..i + 1]) == Names(steps[..i]) + [steps[i].name]
    ensures Successes(Names(steps[..i + 1])) == Successes(Names(steps[..i])) + [StepResult(steps[i].name, true)]
  {
  }

  lemma {:induction false} ErrorStays<C>(steps: seq<Step<C>>, i: nat, n: nat, ctx: C)
    requires i <= n <= |steps| && Forward(steps, i, ctx).error.Some?
    ensures Forward(steps, n, ctx) == Forward(steps, i, ctx)
  {
    if i < n { ErrorStays(steps, i, n - 1, ctx); }
  }

  lemma {:induction false} ErrorStops<C>(steps: seq<Step<C>>, maxRetries: int, i: nat, ctx0: C, w: SagaResult,
                                         before: C, after: C, e: string, ctx: C, r: SagaResult)
    requires i < |steps| && Forward(steps, i, ctx0) == Progress(i, before, None)
    requires steps[i].execute(before) == Threw(after, e)
    requires r.status == Failed && r.finalError == Some(e) && r.completed == w.completed + Names(steps[..i])
    requires r.steps == w.steps + Successes(Names(steps[..i])) + [StepResult(steps[i].name, false)]
    requires ctx == CompensateAll(steps, Reversed(r.completed), after, maxRetries).0
    requires r.compensated == w.compensated + CompensateAll(steps, Reversed(r.completed), after, maxRetries).1
    ensures Executed(steps, maxRetries, ctx0, w, ctx, r)
  {
    ErrorStays(steps, i + 1, |steps|, ctx0);
  }

  lemma {:induction false} NoErrorBefore<C>(steps: seq<Step<C>>, n: nat, ctx: C)
    requires n <= |steps|
    ensures var p := Forward(steps, n, ctx); Forward(steps, p.done, ctx).error == None
    ensures var p := Forward(steps, n, ctx);
      p.error.Some? ==> steps[p.done].execute(Forward(steps, p.done, ctx).ctx) == Threw(p.ctx, p.error.value)
  {
    if n > 0 { NoErrorBefore(steps, n - 1, ctx); }
  }

  /** A saga executed for the first time, whose steps fail without effect and can be compensated: it ends
      failed, with every step completed compensated, the last first, and the context as it was; or, when no
      step fails, completed with all steps run in order. */
  lemma {:induction false} AllOrNothing<C(!new)>(steps: seq<Step<C>>, maxRetries: int, ctx0: C, ctx: C, r: SagaResult)
    requires Executed(steps, maxRetries, ctx0, SagaResult(Running, [], [], [], None), ctx, r)
    requires forall i :: 0 <= i < |steps| ==> EffectFreeFailures(steps[i]) && Compensable(steps[i], maxRetries)
    requires DistinctNames(steps, Forward(steps, |steps|, ctx0).done)
    ensures r.finalError.Some? ==> r.status == Failed && r.compensated == Reversed(r.completed) && ctx == ctx0
    ensures r.finalError == None ==> r.status == Completed && r.completed == Names(steps) && r.compensated == []
    ensures r.finalError == None ==> ctx == Forward(steps, |steps|, ctx0).ctx
  {
    var p := Forward(steps, |steps|, ctx0);
    if p.error.Some? {
      Rolled(steps, maxRetries, ctx0, p);
      NothingBefore(Names(steps[..p.done]));
      NothingBefore(Reversed(Names(steps[..p.done])));
    } else {
      assert steps[..|steps|] == steps;
      NothingBefore(Names(steps));
    }
  }

  lemma NothingBefore<T>(s: seq<T>)
    ensures [] + s == s
  {
  }

  lemma {:induction false} Rolled<C(!new)>(steps: seq<Step<C>>, maxRetries: int, ctx0: C, p: Progress<C>)
    requires p == Forward(steps, |steps|, ctx0) && p.error.Some? && DistinctNames(steps, p.done)
    requires forall i :: 0 <= i < |steps| ==> EffectFreeFailures(steps[i]) && Compensable(steps[i], maxRetries)
    ensures CompensateAll(steps, Reversed(Names(steps[..p.done])), p.ctx, maxRetries) ==
      (ctx0, Reversed(Names(steps[..p.done])))
  {
    NoErrorBefore(steps, |steps|, ctx0);
    assert EffectFreeFailures(steps[p.done]);
    UndoRestores(steps, p.done, ctx0, maxRetries);
  }

  /** What any execution that an error stops lists as compensated: of the names completed, the last first, exactly
      those for which an allowed attempt worked. */
  lemma {:induction false} ListedExactly<C(!new)>(steps: seq<Step<C>>, maxRetries: int, ctx0: C, w: SagaResult, ctx: C,
                                                  r: SagaResult) returns (ctxs: seq<C>, worked: seq<bool>)
    requires Executed(steps, maxRetries, ctx0, w, ctx, r) && Forward(steps, |steps|, ctx0).error.Some?
    ensures var names := Reversed(r.completed);
      && Compensates(steps, names, ctxs, worked, maxRetries)
      && ctxs[0] == Forward(steps, |steps|, ctx0).ctx && ctxs[|names|] == ctx
      && r.compensated == w.compensated + Worked(names, worked)
      && forall name :: name in Worked(names, worked) <==> exists i :: 0 <= i < |names| && names[i] == name && worked[i]
  {
    var names := Reversed(r.completed);
    ctxs, worked := CompensatedExactly(steps, names, Forward(steps, |steps|, ctx0).ctx, maxRetries);
    forall name
      ensures name in Worked(names, worked) <==> exists i :: 0 <= i < |names| && names[i] == name && worked[i]
    {
      WorkedExactly(names, worked, name);
    }
  }
}
