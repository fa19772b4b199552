/**
 What the calls of the queue of language/go/02-type-system/main.go come to: no operation is ever dropped, some
 operation returns whatever the schedule, and a thread that runs alone returns what the values in the queue say.
*/
module LockFreeQueueProgress {
  import opened LockFreeQueue
  import opened Wrappers

  // ----- an operation ends only by returning -----

  /** The threads in the middle of an operation. */
  function Busy(threads: seq<Thread>): nat {
    if threads == [] then 0
    else Busy(threads[..|threads| - 1]) + if threads[|threads| - 1].pc.Idle? then 0 else 1
  }

  lemma {:induction false} BusyUpdate(threads: seq<Thread>, t: Tid, th: Thread)
    requires t < |threads|
    ensures Busy(threads[t := th]) ==
      Busy(threads) - (if threads[t].pc.Idle? then 0 else 1) + (if th.pc.Idle? then 0 else 1)
  {
    var n := |threads| - 1;
    if t < n {
      assert threads[t := th][..n] == threads[..n][t := th];
      BusyUpdate(threads[..n], t, th);
    } else {
      assert threads[t := th][..n] == threads[..n];
    }
  }

  lemma {:induction false} NoneBusy(threads: nat)
    ensures Busy(seq(threads, _ => Thread(Idle, 0, 0))) == 0
  {
    if threads > 0 {
      assert seq(threads, _ => Thread(Idle, 0, 0))[..threads - 1] == seq(threads - 1, _ => Thread(Idle, 0, 0));
      NoneBusy(threads - 1);
    }
  }

  ghost predicate Runs(s: State, t: Tid, op: Op) {
    t < |s.threads| && CurrentOp(s.threads[t].pc) == Some(op)
  }

  /** Each operation called has returned or is the current one of some thread, and their numbers agree. */
  ghost predicate Tracked(s: State) {
    && |s.rec.invokedAt| == |s.rec.returnedAt| + Busy(s.threads)
    && (forall op :: 0 <= op < |s.rec.invokedAt| && op !in s.rec.returnedAt ==> exists t :: Runs(s, t, op))
  }

  ghost predicate OutcomeReady(o: Outcome) {
    Ready(o.0, o.1, o.2)
  }

  lemma GoodIsReady(q: Queue, r: Record, th: Thread, o: Outcome)
    requires GoodOutcome(q, r, th, o)
    ensures OutcomeReady(o) && !o.2.pc.Panicked?
  {
  }

  lemma {:induction false} ReadyMore(o: Outcome)
    requires OutcomeReady(o) && !o.2.pc.Idle?
    ensures OutcomeReady(Proceed(o.0, o.1, o.2)) && !Proceed(o.0, o.1, o.2).2.pc.Panicked?
  {
    ProceedStep(o.0, o.1, o.2);
    GoodIsReady(o.0, o.1, o.2, Proceed(o.0, o.1, o.2));
  }

  /** A step goes on with its operation or returns from it. */
  ghost predicate GoesOnOrReturns(o: Outcome, o': Outcome)
    requires !o.2.pc.Idle?
  {
    && o'.1.invokedAt == o.1.invokedAt
    && if o'.2.pc.Idle? then o'.1.returnedAt.Keys == o.1.returnedAt.Keys + {o.2.pc.op}
       else o'.1.returnedAt == o.1.returnedAt && o'.2.pc.op == o.2.pc.op
  }

  lemma OneStep(o: Outcome)
    requires !o.2.pc.Idle? && !Proceed(o.0, o.1, o.2).2.pc.Panicked?
    ensures GoesOnOrReturns(o, Proceed(o.0, o.1, o.2))
  {
  }

  lemma {:induction false} GoesOn(s: State, t: Tid, o: Outcome, pace: Pace)
    requires Tracked(s) && t < |s.threads| && t < |s.pace| && !s.threads[t].pc.Idle?
    requires s.threads[t].pc.op !in s.rec.returnedAt && GoesOnOrReturns((s.q, s.rec, s.threads[t]), o)
    ensures Tracked(Update(s, t, o, pace))
  {
    var s' := Update(s, t, o, pace);
    BusyUpdate(s.threads, t, o.2);
    assert |s.rec.returnedAt| == |s.rec.returnedAt.Keys| && |o.1.returnedAt| == |o.1.returnedAt.Keys|;
    forall op | 0 <= op < |s'.rec.invokedAt| && op !in s'.rec.returnedAt ensures exists u :: Runs(s', u, op) {
      assert op !in s.rec.returnedAt.Keys;
      var u :| Runs(s, u, op);
      assert Runs(s', u, op);
    }
  }

  lemma {:induction false} GoTracked(s: State, t: Tid)
    requires Inv(s) && Tracked(s) && Enabled(s, Go(t))
    ensures Tracked(Step(s, Go(t)))
  {
    var o := (s.q, s.rec, s.threads[t]);
    ReadyFor(s, t);
    ReadyMore(o);
    OneStep(o);
    GoStep(s, t);
    GoesOn(s, t, Proceed(o.0, o.1, o.2), s.pace[t].(steps := s.pace[t].steps + 1));
  }

  lemma {:induction false} StartTracked(s: State, t: Tid, call: Call)
    requires Inv(s) && Tracked(s) && Enabled(s, Start(t, call))
    ensures Tracked(Step(s, Start(t, call)))
  {
    var s' := Step(s, Start(t, call));
    StartStep(s, t, call);
    BusyUpdate(s.threads, t, Begin(s.q, s.rec, s.threads[t], call).2);
    forall op | 0 <= op < |s'.rec.invokedAt| && op !in s'.rec.returnedAt ensures exists u :: Runs(s', u, op) {
      if op < |s.rec.invokedAt| {
        var u :| Runs(s, u, op);
        assert Runs(s', u, op);
      } else {
        assert Runs(s', t, op);
      }
    }
  }

  lemma {:induction false} RunTracked(threads: nat, schedule: seq<Action>)
    ensures Tracked(Run(threads, schedule))
  {
    if schedule == [] {
      NoneBusy(threads);
    } else {
      var n := |schedule| - 1;
      var s, a := Run(threads, schedule[..n]), schedule[n];
      RunTracked(threads, schedule[..n]);
      RunInv(threads, schedule[..n]);
      if !Enabled(s, a) {
        DisabledStep(s, a);
      } else {
        match a
        case Go(t) => GoTracked(s, t);
        case Start(t, call) => StartTracked(s, t, call);
      }
    }
  }

  /** In every interleaving an operation called has returned, or one thread and no other is in the middle of it. */
  lemma {:induction false} ReturnedOrRunning(threads: nat, schedule: seq<Action>, op: Op)
    requires op < |Run(threads, schedule).rec.invokedAt|
    ensures var s := Run(threads, schedule);
      && (op in s.rec.returnedAt <==> forall t :: !Runs(s, t, op))
      && (forall t, u :: Runs(s, t, op) && Runs(s, u, op) ==> t == u)
  {
    var s := Run(threads, schedule);
    RunTracked(threads, schedule);
    RunInv(threads, schedule);
    forall t | Runs(s, t, op) ensures op !in s.rec.returnedAt {
      assert ThreadOk(s, t);
    }
    forall t: Tid, u: Tid | Runs(s, t, op) && Runs(s, u, op) ensures t == u {
      assert t != u ==> Apart(s.threads[t].pc, s.threads[u].pc);
    }
  }

  lemma {:induction false} BusyBound(threads: seq<Thread>)
    ensures Busy(threads) <= |threads|
  {
    if threads != [] { BusyBound(threads[..|threads| - 1]); }
  }

  lemma {:induction false} Scale(a: nat, b: nat, c: nat)
    requires a <= b
    ensures 6 * a * c <= 6 * b * c
  {
    assert (6 * b - 6 * a) * c >= 0;
  }

  /** Operations keep returning: n threads that have made more than 6(k + n)(1 + 2n) steps between them have had
      more than k operations return, whatever the schedule. */
  lemma {:induction false} SomeReturn(threads: nat, schedule: seq<Action>, k: nat)
    requires TotalSteps(Run(threads, schedule).pace) > 6 * (k + threads) * (1 + 2 * threads)
    ensures |Run(threads, schedule).rec.returnedAt| > k
  {
    var s := Run(threads, schedule);
    RunTracked(threads, schedule);
    RunInv(threads, schedule);
    BusyBound(s.threads);
    LockFree(threads, schedule);
    var calls, c := |s.rec.invokedAt|, 1 + 2 * threads;
    if |s.rec.returnedAt| <= k {
      Scale(calls, k + threads, c);
    }
  }

  // ----- a thread that runs alone -----

  /** k steps of one thread. */
  function Alone(o: Outcome, k: nat): Outcome
    decreases k
  {
    if k == 0 then o else Alone(Proceed(o.0, o.1, o.2), k - 1)
  }

  function Solo(s: State, t: Tid, k: nat): State
    decreases k
  {
    if k == 0 then s else Solo(Step(s, Go(t)), t, k - 1)
  }

  lemma {:induction false} AloneMore(o: Outcome, j: nat, k: nat)
    ensures Alone(o, j + k) == Alone(Alone(o, j), k)
    decreases j
  {
    if j > 0 { AloneMore(Proceed(o.0, o.1, o.2), j - 1, k); }
  }

  lemma {:induction false} IdleStays(o: Outcome, k: nat)
    requires o.2.pc.Idle?
    ensures Alone(o, k) == o
  {
    if k > 0 { IdleStays(Proceed(o.0, o.1, o.2), k - 1); }
  }

  lemma {:induction false} AloneReady(o: Outcome, k: nat)
    requires OutcomeReady(o)
    ensures OutcomeReady(Alone(o, k))
    decreases k
  {
    if k > 0 {
      if !o.2.pc.Idle? { ProceedStep(o.0, o.1, o.2); }
      AloneReady(Proceed(o.0, o.1, o.2), k - 1);
    }
  }

  lemma {:induction false} SoloIsAlone(s: State, t: Tid, k: nat)
    requires t < |s.threads| == |s.pace|
    ensures var s', o := Solo(s, t, k), Alone((s.q, s.rec, s.threads[t]), k);
      && s'.q == o.0 && s'.rec == o.1 && s'.threads == s.threads[t := o.2]
    decreases k
  {
    if k > 0 {
      var s1 := Step(s, Go(t));
      assert s1.threads == s.threads[t := Proceed(s.q, s.rec, s.threads[t]).2];
      SoloIsAlone(s1, t, k - 1);
    }
  }

  /** The thread has just returned from op with this effect, and the queue holds these values. */
  ghost predicate Answers(o: Outcome, op: Op, effect: Effect, contents: seq<int>) {
    && o.2.pc == Idle && o.1.trace != [] && o.1.trace[|o.1.trace| - 1] == Returned(op, effect)
    && Linked(o.0) && Contents(o.0) == contents
  }

  /** tail lags behind the node that was linked last. */
  predicate Lags(q: Queue)
    requires q.tail < |q.next|
  {
    q.next[q.tail] != None
  }

  predicate TailAtEnd(q: Queue) {
    q.tail < |q.next| && !Lags(q)
  }

  /** What a thread in Enqueue has read is still so. */
  ghost predicate FreshEnq(o: Outcome) {
    var q := o.0;
    && q.tail < |q.next|
    && match o.2.pc
       case EnqLoadTail(_, _) => true
       case EnqLoadNext(_, _, tail) => tail == q.tail
       case EnqRecheck(_, _, tail, next) => tail == q.tail && next == q.next[tail]
       case EnqCasNext(_, _, tail) => tail == q.tail && !Lags(q)
       case EnqHelp(_, _, tail, target) => tail == q.tail && Some(target) == q.next[tail]
       case _ => false
  }

  function StepsLeft(pc: PC): nat {
    match pc
    case EnqLoadTail(_, _) => 5
    case EnqLoadNext(_, _, _) => 4
    case EnqRecheck(_, _, _, _) => 3
    case EnqCasNext(_, _, _) => 2
    case EnqHelp(_, _, _, _) => 2
    case DeqLoadHead(_) => 6
    case DeqLoadTail(_, _) => 5
    case DeqLoadNext(_, _, _) => 4
    case DeqRecheck(_, _, _, _, _) => 3
    case DeqHelp(_, _, _) => 2
    case DeqReadValue(_, _, _) => 2
    case DeqCasHead(_, _, _, _) => 1
    case _ => 0
  }

  /** Until its CAS a thread only reads, and what it has read stays so. */
  lemma EnqueueReads(o: Outcome)
    requires FreshEnq(o) && !o.2.pc.EnqCasNext? && !o.2.pc.EnqHelp?
    ensures var o' := Proceed(o.0, o.1, o.2);
      && o'.0 == o.0 && FreshEnq(o') && StepsLeft(o'.2.pc) == StepsLeft(o.2.pc) - 1
      && o'.2.pc.op == o.2.pc.op && o'.2.pc.node == o.2.pc.node
      && (if Lags(o.0) then !o'.2.pc.EnqCasNext? else !o'.2.pc.EnqHelp?)
  {
  }

  lemma AppendsAndReturns(o: Outcome)
    requires o.2.pc.EnqCasNext? && o.2.pc.tail < |o.0.next| && o.2.pc.node < |o.0.value|
    requires o.0.next[o.2.pc.tail] == None
    ensures var EnqCasNext(op, node, tail) := o.2.pc;
      var q', effect := Append(o.0, tail, node), Enqueued(o.0.value[node]);
      var o' := Alone(o, 2);
      && o'.2.pc == Idle && o'.0 == SwingTail(q', tail, node) && |o'.1.trace| > 0
      && o'.1.trace[|o'.1.trace| - 1] == Returned(op, effect)
  {
    var o1 := Proceed(o.0, o.1, o.2);
    assert Alone(o, 2) == Alone(o1, 1) == Alone(Proceed(o1.0, o1.1, o1.2), 0);
  }

  lemma {:induction false} EnqueueAppends(o: Outcome)
    requires OutcomeReady(o) && FreshEnq(o) && o.2.pc.EnqCasNext?
    ensures o.2.pc.node < |o.0.value|
    ensures var v := o.0.value[o.2.pc.node];
      Answers(Alone(o, 2), o.2.pc.op, Enqueued(v), Contents(o.0) + [v]) && TailAtEnd(Alone(o, 2).0)
  {
    var q, tail, node := o.0, o.2.pc.tail, o.2.pc.node;
    AppendMemory(q, tail, node);
    SwingTailLinks(Append(q, tail, node), tail, node);
    AppendsAndReturns(o);
  }

  /** Enqueue from the top of its loop, when tail does not lag. */
  lemma {:induction false} EnqueueAlone(o: Outcome)
    requires OutcomeReady(o) && FreshEnq(o) && !Lags(o.0) && !o.2.pc.EnqHelp?
    ensures o.2.pc.node < |o.0.value|
    ensures var v := o.0.value[o.2.pc.node];
      && Answers(Alone(o, StepsLeft(o.2.pc)), o.2.pc.op, Enqueued(v), Contents(o.0) + [v])
      && TailAtEnd(Alone(o, StepsLeft(o.2.pc)).0)
    decreases StepsLeft(o.2.pc)
  {
    if o.2.pc.EnqCasNext? {
      EnqueueAppends(o);
    } else {
      ReadyMore(o);
      EnqueueReads(o);
      EnqueueAlone(Proceed(o.0, o.1, o.2));
    }
  }

  /** The same place of the loop, with the same values in the queue and tail at its end. */
  ghost predicate CaughtUp(o: Outcome, o': Outcome)
    requires Linked(o.0)
  {
    && OutcomeReady(o') && TailAtEnd(o'.0) && Contents(o'.0) == Contents(o.0)
    && o'.0.value == o.0.value && o'.0.head == o.0.head
  }

  lemma {:induction false} HelpCatchesUp(q: Queue)
    requires Linked(q) && q.tail < |q.next| && Lags(q)
    ensures var q' := SwingTail(q, q.tail, q.next[q.tail].value);
      Linked(q') && Contents(q') == Contents(q) && TailAtEnd(q') && q'.tail != q'.head
  {
    var target := q.next[q.tail].value;
    NextIsSuccessor(q, q.tail);
    NextIsSuccessor(q, target);
    SwingTailLinks(q, q.tail, target);
  }

  lemma {:induction false} EnqueueHelped(o: Outcome)
    requires OutcomeReady(o) && FreshEnq(o) && Lags(o.0) && o.2.pc.EnqHelp?
    ensures CaughtUp(o, Alone(o, 1)) && Alone(o, 1).2.pc == EnqLoadTail(o.2.pc.op, o.2.pc.node)
  {
    ReadyMore(o);
    HelpCatchesUp(o.0);
    assert Alone(o, 1) == Alone(Proceed(o.0, o.1, o.2), 0);
  }

  lemma {:induction false} EnqueueHelps(o: Outcome)
    requires OutcomeReady(o) && FreshEnq(o) && Lags(o.0) && !o.2.pc.EnqCasNext?
    ensures var o' := Alone(o, StepsLeft(o.2.pc) - 1);
      CaughtUp(o, o') && o'.2.pc == EnqLoadTail(o.2.pc.op, o.2.pc.node)
    decreases StepsLeft(o.2.pc)
  {
    if o.2.pc.EnqHelp? {
      EnqueueHelped(o);
    } else {
      ReadyMore(o);
      EnqueueReads(o);
      EnqueueHelps(Proceed(o.0, o.1, o.2));
    }
  }

  // ----- dequeue -----

  ghost predicate FreshDeq(o: Outcome) {
    var q := o.0;
    && q.head < |q.next|
    && match o.2.pc
       case DeqLoadHead(_) => true
       case DeqLoadTail(_, head) => head == q.head
       case DeqLoadNext(_, head, tail) => head == q.head && tail == q.tail
       case DeqRecheck(_, head, tail, next, _) => head == q.head && tail == q.tail && next == q.next[head]
       case DeqHelp(_, tail, target) => tail == q.head == q.tail && Some(target) == q.next[tail]
       case DeqReadValue(_, head, next) => head == q.head && q.head != q.tail && next == q.next[head]
       case DeqCasHead(_, head, target, v) =>
         && head == q.head && q.head != q.tail && Some(target) == q.next[head]
         && target < |q.value| && v == q.value[target]
       case _ => false
  }

  predicate Reading(pc: PC) {
    pc.DeqLoadHead? || pc.DeqLoadTail? || pc.DeqLoadNext? || pc.DeqRecheck? || pc.DeqReadValue?
  }

  lemma DequeueReads(o: Outcome)
    requires FreshDeq(o) && Reading(o.2.pc)
    requires o.0.head == o.0.tail ==> o.2.pc.DeqRecheck? ==> o.0.next[o.0.head] != None
    requires o.0.head != o.0.tail ==> o.0.next[o.0.head] != None && o.0.next[o.0.head].value < |o.0.value|
    ensures var o' := Proceed(o.0, o.1, o.2);
      && o'.0 == o.0 && FreshDeq(o') && StepsLeft(o'.2.pc) == StepsLeft(o.2.pc) - 1 && o'.2.pc.op == o.2.pc.op
      && (Reading(o'.2.pc) || if o.0.head == o.0.tail then o'.2.pc.DeqHelp? else o'.2.pc.DeqCasHead?)
  {
  }

  lemma {:induction false} HeadHasNext(q: Queue)
    requires Linked(q) && q.head != q.tail
    ensures q.head < |q.next| && q.next[q.head] != None && q.next[q.head].value < |q.value|
    ensures Successor(q, q.head, q.next[q.head].value) && q.pos[q.next[q.head].value] <= q.pos[q.tail]
    ensures Contents(q) != [] && Contents(q)[0] == q.value[q.next[q.head].value]
  {
    assert PosOk(q, q.head) && PosOk(q, q.tail);
    NextIsSuccessor(q, q.head);
  }

  lemma {:induction false} DequeueTakes(o: Outcome)
    requires OutcomeReady(o) && FreshDeq(o) && o.2.pc.DeqCasHead?
    ensures Contents(o.0) != []
    ensures Answers(Alone(o, 1), o.2.pc.op, Dequeued(Contents(o.0)[0]), Contents(o.0)[1..])
  {
    HeadHasNext(o.0);
    SwingHeadLinks(o.0, o.2.pc.target);
    assert Alone(o, 1) == Alone(Proceed(o.0, o.1, o.2), 0);
  }

  /** Dequeue from the top of its loop, when head and tail differ. */
  lemma {:induction false} DequeueAlone(o: Outcome)
    requires OutcomeReady(o) && FreshDeq(o) && o.0.head != o.0.tail && !o.2.pc.DeqHelp?
    ensures Contents(o.0) != []
    ensures Answers(Alone(o, StepsLeft(o.2.pc)), o.2.pc.op, Dequeued(Contents(o.0)[0]), Contents(o.0)[1..])
    decreases StepsLeft(o.2.pc)
  {
    if o.2.pc.DeqCasHead? {
      DequeueTakes(o);
    } else {
      HeadHasNext(o.0);
      ReadyMore(o);
      DequeueReads(o);
      DequeueAlone(Proceed(o.0, o.1, o.2));
    }
  }

  lemma {:induction false} DequeueFindsNone(o: Outcome)
    requires OutcomeReady(o) && FreshDeq(o) && o.0.head == o.0.tail && !Lags(o.0) && o.2.pc.DeqRecheck?
    ensures Contents(o.0) == [] && Answers(Alone(o, 1), o.2.pc.op, FoundEmpty, [])
  {
    NilMeansEmpty(o.0, o.0.head, o.0.tail);
    assert Alone(o, 1) == Alone(Proceed(o.0, o.1, o.2), 0);
  }

  /** When they are the same and nothing follows. */
  lemma {:induction false} DequeueEmpty(o: Outcome)
    requires OutcomeReady(o) && FreshDeq(o) && o.0.head == o.0.tail && !Lags(o.0) && Reading(o.2.pc)
    ensures Contents(o.0) == []
    ensures Answers(Alone(o, StepsLeft(o.2.pc) - 2), o.2.pc.op, FoundEmpty, [])
    decreases StepsLeft(o.2.pc)
  {
    if o.2.pc.DeqRecheck? {
      DequeueFindsNone(o);
    } else {
      ReadyMore(o);
      DequeueReads(o);
      DequeueEmpty(Proceed(o.0, o.1, o.2));
    }
  }

  lemma {:induction false} DequeueHelped(o: Outcome)
    requires OutcomeReady(o) && FreshDeq(o) && o.0.head == o.0.tail && Lags(o.0) && o.2.pc.DeqHelp?
    ensures var o' := Alone(o, 1);
      CaughtUp(o, o') && o'.2.pc == DeqLoadHead(o.2.pc.op) && o'.0.head != o'.0.tail
  {
    ReadyMore(o);
    HelpCatchesUp(o.0);
    assert Alone(o, 1) == Alone(Proceed(o.0, o.1, o.2), 0);
  }

  lemma {:induction false} DequeueHelps(o: Outcome)
    requires OutcomeReady(o) && FreshDeq(o) && o.0.head == o.0.tail && Lags(o.0)
    requires Reading(o.2.pc) || o.2.pc.DeqHelp?
    ensures var o' := Alone(o, StepsLeft(o.2.pc) - 1);
      CaughtUp(o, o') && o'.2.pc == DeqLoadHead(o.2.pc.op) && o'.0.head != o'.0.tail
    decreases StepsLeft(o.2.pc)
  {
    if o.2.pc.DeqHelp? {
      DequeueHelped(o);
    } else {
      ReadyMore(o);
      DequeueReads(o);
      DequeueHelps(Proceed(o.0, o.1, o.2));
    }
  }

  // ----- every call -----

  /** What a call answers on a queue that holds these values. */
  ghost predicate IsAnswer(call: Call, contents: seq<int>, effect: Effect, contents': seq<int>) {
    match call
    case Enqueue(v) => effect == Enqueued(v) && contents' == contents + [v]
    case Dequeue =>
      if contents == [] then effect == FoundEmpty && contents' == []
      else effect == Dequeued(contents[0]) && contents' == contents[1..]
  }

  predicate AtTop(pc: PC) {
    pc.EnqLoadTail? || pc.DeqLoadHead?
  }

  function CallOf(o: Outcome): Call
    requires AtTop(o.2.pc) && (o.2.pc.EnqLoadTail? ==> o.2.pc.node < |o.0.value|)
  {
    if o.2.pc.EnqLoadTail? then Enqueue(o.0.value[o.2.pc.node]) else Dequeue
  }

  lemma {:induction false} AloneThen(o: Outcome, j: nat, k: nat, n: nat)
    requires j + k <= n && Alone(Alone(o, j), k).2.pc.Idle?
    ensures Alone(o, n) == Alone(Alone(o, j), k)
  {
    AloneMore(o, j, k);
    AloneMore(o, j + k, n - j - k);
    IdleStays(Alone(o, j + k), n - j - k);
  }

  /** From the top of its loop a thread that runs alone returns within eleven steps. */
  lemma {:induction false} TopAnswers(o: Outcome) returns (effect: Effect)
    requires OutcomeReady(o) && AtTop(o.2.pc)
    ensures o.2.pc.EnqLoadTail? ==> o.2.pc.node < |o.0.value|
    ensures var o' := Alone(o, 11);
      && Linked(o'.0) && Answers(o', o.2.pc.op, effect, Contents(o'.0))
      && IsAnswer(CallOf(o), Contents(o.0), effect, Contents(o'.0)) && (o.2.pc.EnqLoadTail? ==> TailAtEnd(o'.0))
  {
    var first := o;
    var j, k := 0, 0;
    NextIsSuccessor(o.0, o.0.tail);
    NextIsSuccessor(o.0, o.0.head);
    if o.2.pc.EnqLoadTail? {
      if Lags(o.0) {
        EnqueueHelps(o);
        j := 4;
        first := Alone(o, 4);
      }
      EnqueueAlone(first);
      k, effect := 5, Enqueued(o.0.value[o.2.pc.node]);
    } else if o.0.head == o.0.tail && !Lags(o.0) {
      DequeueEmpty(o);
      k, effect := 4, FoundEmpty;
    } else {
      if o.0.head == o.0.tail {
        DequeueHelps(o);
        j := 5;
        first := Alone(o, 5);
        NextIsSuccessor(first.0, first.0.head);
      }
      DequeueAlone(first);
      k, effect := 6, Dequeued(Contents(o.0)[0]);
    }
    AloneThen(o, j, k, 11);
  }

  lemma RankGrows(o: Outcome)
    requires !o.2.pc.Idle? && !o.2.pc.Panicked? && !AtTop(o.2.pc)
    ensures var o' := Proceed(o.0, o.1, o.2); AtTop(o'.2.pc) || Rank(o'.2.pc) > Rank(o.2.pc)
  {
  }

  lemma {:induction false} NotPanicked(o: Outcome, k: nat)
    requires OutcomeReady(o)
    ensures !Alone(o, k).2.pc.Panicked?
  {
    AloneReady(o, k);
  }

  /** Whatever it has read, a thread that runs alone comes to the top of its loop or returns. */
  lemma {:induction false} ComesToTop(o: Outcome) returns (k: nat)
    requires forall j :: !Alone(o, j).2.pc.Panicked?
    ensures k <= if AtTop(o.2.pc) then 0 else 6 - Rank(o.2.pc)
    ensures AtTop(Alone(o, k).2.pc) || Alone(o, k).2.pc.Idle?
    decreases if AtTop(o.2.pc) then 0 else 7 - Rank(o.2.pc)
  {
    assert !Alone(o, 0).2.pc.Panicked?;
    if AtTop(o.2.pc) || o.2.pc.Idle? {
      k := 0;
    } else {
      var o1 := Proceed(o.0, o.1, o.2);
      RankGrows(o);
      forall j: nat ensures !Alone(o1, j).2.pc.Panicked? {
        assert Alone(o, j + 1) == Alone(o1, j);
      }
      k := ComesToTop(o1);
      k := k + 1;
    }
  }

  lemma {:induction false} AloneTracks(o: Outcome, op: Op, k: nat)
    requires OutcomeReady(o) && (op in o.1.returnedAt || CurrentOp(o.2.pc) == Some(op))
    ensures var o' := Alone(o, k); op in o'.1.returnedAt || CurrentOp(o'.2.pc) == Some(op)
    decreases k
  {
    if o.2.pc.Idle? {
      IdleStays(o, k);
    } else if k > 0 {
      ReadyMore(o);
      OneStep(o);
      AloneTracks(Proceed(o.0, o.1, o.2), op, k - 1);
    }
  }

  /** In every reachable state a thread that runs alone from then on returns within sixteen steps, whatever it
      has read and wherever the other threads stopped. */
  lemma {:induction false} AloneReturns(threads: nat, schedule: seq<Action>, t: Tid)
    requires t < threads == |Run(threads, schedule).threads|
    ensures var s := Run(threads, schedule);
      var s' := Solo(s, t, 16);
      && |s'.threads| == threads && s'.threads[t].pc == Idle
      && (!s.threads[t].pc.Idle? ==> s.threads[t].pc.op in s'.rec.returnedAt)
  {
    var s := Run(threads, schedule);
    RunInv(threads, schedule);
    ReadyFor(s, t);
    var o := (s.q, s.rec, s.threads[t]);
    forall k: nat ensures !Alone(o, k).2.pc.Panicked? { NotPanicked(o, k); }
    var k := ComesToTop(o);
    AloneReady(o, k);
    if AtTop(Alone(o, k).2.pc) {
      var effect := TopAnswers(Alone(o, k));
      AloneThen(o, k, 11, 16);
    } else {
      AloneThen(o, k, 0, 16);
    }
    if !o.2.pc.Idle? { AloneTracks(o, o.2.pc.op, 16); }
    SoloIsAlone(s, t, 16);
  }

  lemma {:induction false} Called(s: State, t: Tid, call: Call)
    requires Inv(s) && t < |s.threads| && s.threads[t].pc == Idle
    ensures var s1 := Step(s, Start(t, call));
      && |s1.threads| == |s.threads| == |s1.pace| && s1.threads == s.threads[t := s1.threads[t]]
      && (var o := (s1.q, s1.rec, s1.threads[t]);
          && OutcomeReady(o) && Contents(s1.q) == Contents(s.q)
          && AtTop(o.2.pc) && o.2.pc.op == |s.rec.invokedAt|
          && (o.2.pc.EnqLoadTail? ==> o.2.pc.node < |s1.q.value|) && CallOf(o) == call)
  {
    StartStep(s, t, call);
    ReadyFor(s, t);
    BeginStep(s.q, s.rec, s.threads[t], call);
    if call.Enqueue? { AllocateLinks(s.q, call.v); }
  }

  /** In every reachable state a thread that is idle and then calls an operation that nothing interleaves with has
      it return within eleven steps, wherever the other threads stopped; with the first of the values in the
      queue, or that there is none exactly when there is none, or with its value put behind them. */
  lemma {:induction false} CallAnswers(threads: nat, schedule: seq<Action>, t: Tid, call: Call) returns (effect: Effect)
    requires t < threads == |Run(threads, schedule).threads| && Run(threads, schedule).threads[t].pc == Idle
    ensures var s := Run(threads, schedule);
      var s' := Solo(Step(s, Start(t, call)), t, 11);
      && |s'.threads| == threads && s'.threads[t].pc == Idle && Linked(s.q) && Linked(s'.q)
      && s'.rec.trace != [] && s'.rec.trace[|s'.rec.trace| - 1] == Returned(|s.rec.invokedAt|, effect)
      && IsAnswer(call, Contents(s.q), effect, Contents(s'.q)) && (call.Enqueue? ==> TailAtEnd(s'.q))
      && forall u :: 0 <= u < threads && u != t ==> s'.threads[u] == s.threads[u]
  {
    var s := Run(threads, schedule);
    var s1 := Step(s, Start(t, call));
    RunInv(threads, schedule);
    ReadyFor(s, t);
    Called(s, t, call);
    effect := TopAnswers((s1.q, s1.rec, s1.threads[t]));
    SoloIsAlone(s1, t, 11);
  }
}
