/**
 The compare-and-swap queue of language/go/02-type-system/main.go.

 Every atomic load, comparison and CAS of Enqueue and Dequeue is one step, and a schedule is an
 arbitrary sequence of steps by arbitrary threads.  Nodes are numbered in allocation order and a
 number is never reused, as a garbage collector guarantees while a thread still holds a pointer.

 The fields chain, pos, appends, tailMoves and headMoves of Queue, the whole of Record, and mark and
 failed of Thread are auxiliary: they record what happened and no step depends on them.
*/
module LockFreeQueue {
  import opened Sets
  import opened Wrappers

  type Node = nat
  type Tid = nat
  type Op = nat

  datatype Call = Enqueue(v: int) | Dequeue

  /** What an operation does to the queue, which is also what it returns:
      FoundEmpty is the pair (0, false), Dequeued(v) is (v, true). */
  datatype Effect = Enqueued(v: int) | Dequeued(v: int) | FoundEmpty

  datatype Event =
    | Invoked(op: Op, call: Call)
    | TookEffect(op: Op, effect: Effect)
    | Returned(op: Op, effect: Effect)

  /** The next atomic access of a thread, with the local variables it has read so far. */
  datatype PC =
    | Idle
    | EnqLoadTail(op: Op, node: Node)
    | EnqLoadNext(op: Op, node: Node, tail: Node)
    | EnqRecheck(op: Op, node: Node, tail: Node, next: Option<Node>)
    | EnqCasNext(op: Op, node: Node, tail: Node)
    | EnqHelp(op: Op, node: Node, tail: Node, target: Node)
    | EnqCasTail(op: Op, node: Node, tail: Node)
    | DeqLoadHead(op: Op)
    | DeqLoadTail(op: Op, head: Node)
    | DeqLoadNext(op: Op, head: Node, tail: Node)
    | DeqRecheck(op: Op, head: Node, tail: Node, next: Option<Node>, seen: nat)
    | DeqHelp(op: Op, tail: Node, target: Node)
    | DeqReadValue(op: Op, head: Node, next: Option<Node>)
    | DeqCasHead(op: Op, head: Node, target: Node, value: int)
    | Panicked(op: Op)

  datatype Queue = Queue(
    value: seq<int>,
    next: seq<Option<Node>>,
    head: Node,
    tail: Node,
    chain: seq<Node>,        // every node ever linked, oldest first
    pos: map<Node, nat>,     // its inverse
    appends: nat,            // successful CASes on a next field
    tailMoves: nat,          // successful CASes on q.tail
    headMoves: nat)          // successful CASes on q.head

  datatype Record = Record(
    trace: seq<Event>,
    invokedAt: seq<nat>,     // operation number -> index in trace
    lin: map<Op, nat>,       // operation -> index in trace where it takes effect
    returnedAt: map<Op, nat>)

  datatype Thread = Thread(
    pc: PC,
    mark: nat,               // successful CASes when the current iteration began
    failed: nat)             // iterations that went round the loop again

  /** Auxiliary: operations a thread has started and steps it has made inside operations. */
  datatype Pace = Pace(started: nat, steps: nat)

  datatype State = State(q: Queue, rec: Record, threads: seq<Thread>, pace: seq<Pace>)

  datatype Action = Start(t: Tid, call: Call) | Go(t: Tid)

  // ----- shared memory operations -----

  function Successes(q: Queue): nat {
    q.appends + q.tailMoves + q.headMoves
  }

  function Allocate(q: Queue, v: int): Queue {
    q.(value := q.value + [v], next := q.next + [None])
  }

  /** The CAS on tail.next has found nil. */
  function Append(q: Queue, tail: Node, node: Node): Queue
    requires tail < |q.next|
  {
    q.(next := q.next[tail := Some(node)], chain := q.chain + [node], pos := q.pos[node := |q.chain|],
      appends := q.appends + 1)
  }

  function SwingTail(q: Queue, from: Node, to: Node): Queue {
    if q.tail == from then q.(tail := to, tailMoves := q.tailMoves + 1) else q
  }

  function SwingHead(q: Queue, to: Node): Queue {
    q.(head := to, headMoves := q.headMoves + 1)
  }

  // ----- the program -----

  function NewLockFreeQueue(threads: nat): State {
    State(Queue([0], [None], 0, 0, [0], map[0 := 0], 0, 0, 0), Record([], [], map[], map[]),
          seq(threads, _ => Thread(Idle, 0, 0)), seq(threads, _ => Pace(0, 0)))
  }

  function Emit(r: Record, e: Event): Record {
    r.(trace := r.trace + [e])
  }

  function Begun(r: Record, call: Call): Record {
    Emit(r, Invoked(|r.invokedAt|, call)).(invokedAt := r.invokedAt + [|r.trace|])
  }

  function Return(r: Record, op: Op, effect: Effect): Record {
    Emit(r, Returned(op, effect)).(returnedAt := r.returnedAt[op := |r.trace|])
  }

  /** An effect the operation is charged with at once. */
  function Effective(r: Record, op: Op, effect: Effect): Record {
    Emit(r, TookEffect(op, effect)).(lin := r.lin[op := |r.trace|])
  }

  function Goto(th: Thread, pc: PC): Thread {
    th.(pc := pc)
  }

  /** Back to the top of the loop without having returned; q is the queue the next iteration starts from. */
  function Again(th: Thread, q: Queue, pc: PC): Thread {
    Thread(pc, Successes(q), th.failed + 1)
  }

  /** What one step of a thread does: the queue, the record and the thread after it. */
  type Outcome = (Queue, Record, Thread)

  function Begin(q: Queue, r: Record, th: Thread, call: Call): Outcome {
    var op := |r.invokedAt|;
    match call
    case Enqueue(v) => (Allocate(q, v), Begun(r, call), Thread(EnqLoadTail(op, |q.value|), Successes(q), th.failed))
    case Dequeue => (q, Begun(r, call), Thread(DeqLoadHead(op), Successes(q), th.failed))
  }

  function Proceed(q: Queue, r: Record, th: Thread): Outcome {
    match th.pc
    case Idle => (q, r, th)
    case Panicked(_) => (q, r, th)

    case EnqLoadTail(op, node) => (q, r, Goto(th, EnqLoadNext(op, node, q.tail)))
    case EnqLoadNext(op, node, tail) =>
      if tail >= |q.next| then (q, r, Goto(th, Panicked(op)))
      else (q, r, Goto(th, EnqRecheck(op, node, tail, q.next[tail])))
    case EnqRecheck(op, node, tail, next) =>
      if tail != q.tail then (q, r, Again(th, q, EnqLoadTail(op, node)))
      else if next == None then (q, r, Goto(th, EnqCasNext(op, node, tail)))
      else (q, r, Goto(th, EnqHelp(op, node, tail, next.value)))
    case EnqCasNext(op, node, tail) =>
      if tail >= |q.next| || node >= |q.value| then (q, r, Goto(th, Panicked(op)))
      else if q.next[tail] != None then (q, r, Again(th, q, EnqLoadTail(op, node)))
      else (Append(q, tail, node), Effective(r, op, Enqueued(q.value[node])), Goto(th, EnqCasTail(op, node, tail)))
    case EnqHelp(op, node, tail, target) =>
      var q' := SwingTail(q, tail, target);
      (q', r, Again(th, q', EnqLoadTail(op, node)))
    case EnqCasTail(op, node, tail) =>
      if node >= |q.value| then (q, r, Goto(th, Panicked(op)))
      else (SwingTail(q, tail, node), Return(r, op, Enqueued(q.value[node])), Goto(th, Idle))

    case DeqLoadHead(op) => (q, r, Goto(th, DeqLoadTail(op, q.head)))
    case DeqLoadTail(op, head) => (q, r, Goto(th, DeqLoadNext(op, head, q.tail)))
    case DeqLoadNext(op, head, tail) =>
      if head >= |q.next| then (q, r, Goto(th, Panicked(op)))
      else
        (q, if q.next[head] == None then Emit(r, TookEffect(op, FoundEmpty)) else r,
         Goto(th, DeqRecheck(op, head, tail, q.next[head], |r.trace|)))
    case DeqRecheck(op, head, tail, next, seen) =>
      if head != q.head then (q, r, Again(th, q, DeqLoadHead(op)))
      else if head == tail then
        if next == None then (q, Return(r, op, FoundEmpty).(lin := r.lin[op := seen]), Goto(th, Idle))
        else (q, r, Goto(th, DeqHelp(op, tail, next.value)))
      else (q, r, Goto(th, DeqReadValue(op, head, next)))
    case DeqHelp(op, tail, target) =>
      var q' := SwingTail(q, tail, target);
      (q', r, Again(th, q', DeqLoadHead(op)))
    case DeqReadValue(op, head, next) =>
      if next == None || next.value >= |q.value| then (q, r, Goto(th, Panicked(op)))
      else (q, r, Goto(th, DeqCasHead(op, head, next.value, q.value[next.value])))
    case DeqCasHead(op, head, target, v) =>
      if q.head != head then (q, r, Again(th, q, DeqLoadHead(op)))
      else (SwingHead(q, target), Return(Effective(r, op, Dequeued(v)), op, Dequeued(v)), Goto(th, Idle))
  }

  /** One step of a schedule; an action that is not possible changes nothing. */
  function Step(s: State, a: Action): State {
    if a.t >= |s.threads| || a.t >= |s.pace| then s
    else
      var th, pace := s.threads[a.t], s.pace[a.t];
      match a
      case Start(t, call) =>
        if th.pc != Idle then s else Update(s, t, Begin(s.q, s.rec, th, call), pace.(started := pace.started + 1))
      case Go(t) =>
        if th.pc == Idle then s else Update(s, t, Proceed(s.q, s.rec, th), pace.(steps := pace.steps + 1))
  }

  function Update(s: State, t: Tid, o: Outcome, pace: Pace): State
    requires t < |s.threads| && t < |s.pace|
  {
    State(o.0, o.1, s.threads[t := o.2], s.pace[t := pace])
  }

  function Run(threads: nat, schedule: seq<Action>): State {
    if schedule == [] then NewLockFreeQueue(threads)
    else Step(Run(threads, schedule[..|schedule| - 1]), schedule[|schedule| - 1])
  }

  // ----- the sequential queue -----

  /** Runs a log of effects on a first-in first-out sequence; None when some effect is impossible. */
  function Replay(log: seq<Effect>): Option<seq<int>> {
    if log == [] then Some([])
    else
      match Replay(log[..|log| - 1])
      case None => None
      case Some(q) => Apply(q, log[|log| - 1])
  }

  function Apply(q: seq<int>, e: Effect): Option<seq<int>> {
    match e
    case Enqueued(v) => Some(q + [v])
    case Dequeued(v) => if q != [] && q[0] == v then Some(q[1..]) else None
    case FoundEmpty => if q == [] then Some(q) else None
  }

  function AllEffects(trace: seq<Event>): seq<Effect> {
    if trace == [] then []
    else
      var e := trace[|trace| - 1];
      AllEffects(trace[..|trace| - 1]) + (if e.TookEffect? then [e.effect] else [])
  }

  /** The effects operations are finally charged with, in the order they happened. */
  function Linearization(trace: seq<Event>, lin: map<Op, nat>): seq<Effect> {
    if trace == [] then []
    else
      var i := |trace| - 1;
      var e := trace[i];
      Linearization(trace[..i], lin) + (if e.TookEffect? && e.op in lin && lin[e.op] == i then [e.effect] else [])
  }

  // ----- the shape of the queue -----

  /** The linked nodes form one chain; tail is on it, at or after head and at most one before its end. */
  ghost predicate Linked(q: Queue) {
    && |q.next| == |q.value|
    && 0 < |q.chain|
    && (forall i :: 0 <= i < |q.chain| ==> q.chain[i] < |q.value|)
    && (forall i :: 0 <= i < |q.chain| ==> ChainOk(q, i))
    && (forall n :: n in q.pos ==> PosOk(q, n))
    && (forall n :: 0 <= n < |q.next| && n !in q.pos ==> q.next[n] == None)
    && q.head in q.pos && q.tail in q.pos
    && q.pos[q.head] <= q.pos[q.tail] < |q.chain| <= q.pos[q.tail] + 2
    && q.appends == |q.chain| - 1 && q.tailMoves == q.pos[q.tail] && q.headMoves == q.pos[q.head]
  }

  predicate ChainOk(q: Queue, i: nat)
    requires i < |q.chain|
  {
    var n := q.chain[i];
    && n in q.pos && q.pos[n] == i
    && n < |q.next| && q.next[n] == if i + 1 < |q.chain| then Some(q.chain[i + 1]) else None
  }

  predicate PosOk(q: Queue, n: Node) {
    n in q.pos && q.pos[n] < |q.chain| && q.chain[q.pos[n]] == n
  }

  function ValuesOf(q: Queue, nodes: seq<Node>): seq<int>
    requires forall i :: 0 <= i < |nodes| ==> nodes[i] < |q.value|
  {
    seq(|nodes|, i requires 0 <= i < |nodes| => q.value[nodes[i]])
  }

  /** The values in the queue, oldest first. */
  ghost function Contents(q: Queue): seq<int>
    requires Linked(q)
  {
    ValuesOf(q, q.chain[q.pos[q.head] + 1..])
  }

  lemma {:induction false} NextIsSuccessor(q: Queue, n: Node)
    requires Linked(q) && n in q.pos
    ensures PosOk(q, n) && n < |q.next|
    ensures if q.pos[n] == |q.chain| - 1 then q.next[n] == None else q.next[n] == Some(q.chain[q.pos[n] + 1])
    ensures q.pos[n] < |q.chain| - 1 ==> Successor(q, n, q.chain[q.pos[n] + 1])
  {
    assert PosOk(q, n);
    assert ChainOk(q, q.pos[n]);
    if q.pos[n] < |q.chain| - 1 { assert ChainOk(q, q.pos[n] + 1); }
  }

  lemma {:induction false} NilIsLast(q: Queue, n: Node)
    requires Linked(q) && n in q.pos && q.pos[n] <= q.pos[q.tail] && q.next[n] == None
    ensures n == q.tail && q.pos[n] == |q.chain| - 1
  {
    NextIsSuccessor(q, n);
    NextIsSuccessor(q, q.tail);
  }

  lemma {:induction false} AppendLinks(q: Queue, tail: Node, node: Node)
    requires Linked(q) && tail == q.tail && q.pos[tail] == |q.chain| - 1
    requires node < |q.value| && node !in q.pos
    ensures Linked(Append(q, tail, node))
  {
    var q' := Append(q, tail, node);
    assert PosOk(q, q.head) && PosOk(q, tail);
    forall i | 0 <= i < |q'.chain| ensures ChainOk(q', i) {
      if i < |q.chain| { assert ChainOk(q, i); }
    }
    forall n | n in q'.pos ensures PosOk(q', n) {
      if n != node { assert PosOk(q, n); }
    }
  }

  lemma ValuesAppend(q: Queue, q': Queue, nodes: seq<Node>, node: Node)
    requires (forall i :: 0 <= i < |nodes| ==> nodes[i] < |q.value|) && node < |q.value| && q'.value == q.value
    ensures ValuesOf(q', nodes + [node]) == ValuesOf(q, nodes) + [q.value[node]]
  {
  }

  lemma {:induction false} AppendContents(q: Queue, tail: Node, node: Node)
    requires Linked(q) && tail < |q.next| && node < |q.value| && node !in q.pos && Linked(Append(q, tail, node))
    ensures Contents(Append(q, tail, node)) == Contents(q) + [q.value[node]]
  {
    var q' := Append(q, tail, node);
    var i := q.pos[q.head] + 1;
    assert PosOk(q, q.head);
    var nodes, nodes' := q.chain[i..], q'.chain[i..];
    assert nodes' == nodes + [node] && q'.pos[q'.head] + 1 == i;
    ValuesAppend(q, q', nodes, node);
  }

  /** The parts of the queue that head, tail and the counts do not belong to. */
  lemma {:induction false} SameChain(q: Queue, q': Queue)
    requires Linked(q) && q'.value == q.value && q'.next == q.next && q'.chain == q.chain && q'.pos == q.pos
    ensures forall i :: 0 <= i < |q'.chain| ==> ChainOk(q', i)
    ensures forall n :: n in q'.pos ==> PosOk(q', n)
  {
    forall i | 0 <= i < |q'.chain| ensures ChainOk(q', i) { assert ChainOk(q, i); }
    forall n | n in q'.pos ensures PosOk(q', n) { assert PosOk(q, n); }
  }

  lemma {:induction false} SwingTailLinks(q: Queue, from: Node, to: Node)
    requires Linked(q) && Successor(q, from, to)
    ensures Linked(SwingTail(q, from, to))
    ensures Contents(SwingTail(q, from, to)) == Contents(q)
  {
    SameChain(q, SwingTail(q, from, to));
    assert PosOk(q, to);
  }

  lemma {:induction false} SwingHeadLinks(q: Queue, to: Node)
    requires Linked(q) && Successor(q, q.head, to) && q.pos[to] <= q.pos[q.tail]
    ensures Linked(SwingHead(q, to))
    ensures Contents(q) == [q.value[to]] + Contents(SwingHead(q, to))
  {
    SameChain(q, SwingHead(q, to));
    assert PosOk(q, to);
    assert q.chain[q.pos[q.head] + 1..] == [to] + q.chain[q.pos[to] + 1..];
  }

  lemma {:induction false} NotYetLinked(q: Queue, n: Node)
    requires Linked(q) && |q.value| <= n
    ensures n !in q.pos
  {
    assert n in q.pos ==> PosOk(q, n);
  }

  lemma {:induction false} AllocateLinks(q: Queue, v: int)
    requires Linked(q)
    ensures Linked(Allocate(q, v))
    ensures Contents(Allocate(q, v)) == Contents(q)
    ensures |q.value| !in q.pos
  {
    var q' := Allocate(q, v);
    forall i | 0 <= i < |q'.chain| ensures ChainOk(q', i) { assert ChainOk(q, i); }
    forall n | n in q'.pos ensures PosOk(q', n) { assert PosOk(q, n); }
    NotYetLinked(q, |q.value|);
  }

  // ----- what threads know, and why other threads cannot make it false -----

  predicate Behind(q: Queue, n: Node, bound: Node) {
    n in q.pos && bound in q.pos && q.pos[n] <= q.pos[bound]
  }

  predicate Successor(q: Queue, n: Node, m: Node) {
    n in q.pos && m in q.pos && q.pos[m] == q.pos[n] + 1
  }

  /** tail was q.tail; if it no longer is, a CAS has succeeded since the iteration began. */
  predicate OldTail(q: Queue, tail: Node, mark: nat) {
    Behind(q, tail, q.tail) && (tail == q.tail || mark < Successes(q))
  }

  predicate OldHead(q: Queue, head: Node, mark: nat) {
    Behind(q, head, q.head) && (head == q.head || mark < Successes(q))
  }

  predicate WasLast(q: Queue, n: Node, mark: nat) {
    n < |q.next| && (q.next[n] == None || mark < Successes(q))
  }

  predicate SawEmpty(r: Record, op: Op, seen: nat) {
    && op < |r.invokedAt|
    && r.invokedAt[op] < seen < |r.trace|
    && r.trace[seen] == TookEffect(op, FoundEmpty)
  }

  /** What a thread knows about the queue from what it has read. */
  predicate Knows(q: Queue, r: Record, th: Thread) {
    match th.pc
    case Idle => true
    case Panicked(_) => false
    case EnqLoadTail(_, _) => true
    case EnqLoadNext(_, _, tail) => OldTail(q, tail, th.mark)
    case EnqRecheck(_, _, tail, next) =>
      && OldTail(q, tail, th.mark)
      && if next == None then WasLast(q, tail, th.mark) else Successor(q, tail, next.value)
    case EnqCasNext(_, _, tail) => OldTail(q, tail, th.mark) && WasLast(q, tail, th.mark)
    case EnqHelp(_, _, tail, target) => OldTail(q, tail, th.mark) && Successor(q, tail, target)
    case EnqCasTail(_, node, tail) => Successor(q, tail, node)
    case DeqLoadHead(_) => true
    case DeqLoadTail(_, head) => OldHead(q, head, th.mark)
    case DeqLoadNext(_, head, tail) => OldHead(q, head, th.mark) && Behind(q, head, tail) && OldTail(q, tail, th.mark)
    case DeqRecheck(op, head, tail, next, seen) =>
      && OldHead(q, head, th.mark) && Behind(q, head, tail) && OldTail(q, tail, th.mark)
      && if next == None then tail == head && SawEmpty(r, op, seen) else Successor(q, head, next.value)
    case DeqHelp(_, tail, target) => OldTail(q, tail, th.mark) && Successor(q, tail, target)
    case DeqReadValue(_, head, next) =>
      && OldHead(q, head, th.mark)
      && next != None && Successor(q, head, next.value) && Behind(q, next.value, q.tail)
    case DeqCasHead(_, head, target, v) =>
      && OldHead(q, head, th.mark)
      && Successor(q, head, target) && Behind(q, target, q.tail)
      && target < |q.value| && v == q.value[target]
  }

  /** How the queue may change while a thread is not looking. */
  ghost predicate Evolves(q: Queue, q': Queue) {
    && q.value <= q'.value && |q.next| <= |q'.next|
    && Successes(q) <= Successes(q')
    && (forall n :: 0 <= n < |q.next| ==> q'.next[n] == q.next[n] || Successes(q) < Successes(q'))
    && (forall n :: n in q.pos ==> n in q'.pos && q'.pos[n] == q.pos[n])
    && q.tail in q.pos && q'.tail in q'.pos && q.pos[q.tail] <= q'.pos[q'.tail]
    && q.head in q.pos && q'.head in q'.pos && q.pos[q.head] <= q'.pos[q'.head]
    && (q'.tail == q.tail || Successes(q) < Successes(q'))
    && (q'.head == q.head || Successes(q) < Successes(q'))
  }

  ghost predicate Extends(r: Record, r': Record) {
    r.trace <= r'.trace && r.invokedAt <= r'.invokedAt
  }

  lemma Unaffected(q: Queue, q': Queue, r: Record, r': Record, th: Thread)
    requires Knows(q, r, th) && th.mark <= Successes(q)
    requires Evolves(q, q') && Extends(r, r')
    ensures Knows(q', r', th)
  {
  }

  // ----- operations and what is recorded about them -----

  /** The operation a thread is in the middle of. */
  function CurrentOp(pc: PC): Option<Op> {
    if pc.Idle? then None else Some(pc.op)
  }

  /** The node a thread has allocated and not yet linked. */
  function Private(pc: PC): Option<Node> {
    match pc
    case EnqLoadTail(_, node) => Some(node)
    case EnqLoadNext(_, node, _) => Some(node)
    case EnqRecheck(_, node, _, _) => Some(node)
    case EnqCasNext(_, node, _) => Some(node)
    case EnqHelp(_, node, _, _) => Some(node)
    case _ => None
  }

  /** The operation was invoked with what the thread is doing. */
  predicate Calls(q: Queue, r: Record, pc: PC)
    requires !pc.Idle? && pc.op < |r.invokedAt|
  {
    var i := r.invokedAt[pc.op];
    && i < |r.trace|
    && (Private(pc) != None ==>
      var n := Private(pc).value; n < |q.value| && r.trace[i] == Invoked(pc.op, Enqueue(q.value[n])))
    && (IsDequeue(pc) ==> r.trace[i] == Invoked(pc.op, Dequeue))
  }

  predicate IsDequeue(p: PC) {
    p.DeqLoadHead? || p.DeqLoadTail? || p.DeqLoadNext? || p.DeqRecheck? || p.DeqHelp? || p.DeqReadValue? ||
      p.DeqCasHead?
  }

  /** An enqueue puts in the value it was given; a dequeue takes one out or finds none. */
  predicate Fits(call: Call, effect: Effect) {
    match call
    case Enqueue(v) => effect == Enqueued(v)
    case Dequeue => !effect.Enqueued?
  }

  /** A thread's own operation, its unlinked node and its iteration count. */
  predicate Owns(q: Queue, r: Record, th: Thread) {
    var pc := th.pc;
    && th.failed <= th.mark <= Successes(q)
    && (!pc.Idle? ==>
      pc.op < |r.invokedAt| && pc.op !in r.returnedAt && (pc.op in r.lin <==> pc.EnqCasTail?) && Calls(q, r, pc))
    && (Private(pc) != None ==> Private(pc).value < |q.value| && Private(pc).value !in q.pos)
    && (pc.EnqCasTail? ==>
          && pc.node < |q.value|
          && r.lin[pc.op] < |r.trace| && r.trace[r.lin[pc.op]] == TookEffect(pc.op, Enqueued(q.value[pc.node])))
  }

  /** Two threads never share an operation or an unlinked node. */
  predicate Apart(p: PC, p': PC) {
    && (CurrentOp(p) == None || CurrentOp(p) != CurrentOp(p'))
    && (Private(p) == None || Private(p) != Private(p'))
  }

  /** Each event has its operation; each operation its invocation and at most one effect it is charged with. */
  ghost predicate Recorded(r: Record) {
    && (forall i :: 0 <= i < |r.trace| ==> EventOk(r, i))
    && (forall o :: 0 <= o < |r.invokedAt| ==> OpOk(r, o))
    && (forall o :: o in r.lin ==> o < |r.invokedAt|)
    && (forall o :: o in r.returnedAt ==> o < |r.invokedAt|)
  }

  predicate EventOk(r: Record, i: nat)
    requires i < |r.trace|
  {
    match r.trace[i]
    case Invoked(op, _) => op < |r.invokedAt| && r.invokedAt[op] == i
    case TookEffect(op, effect) => effect == FoundEmpty || (op in r.lin && r.lin[op] == i)
    case Returned(op, effect) =>
      && op in r.lin && r.lin[op] < i && r.trace[r.lin[op]] == TookEffect(op, effect)
      && op in r.returnedAt && r.returnedAt[op] == i
  }

  predicate OpOk(r: Record, o: Op)
    requires o < |r.invokedAt|
  {
    && r.invokedAt[o] < |r.trace|
    && r.trace[r.invokedAt[o]].Invoked? && r.trace[r.invokedAt[o]].op == o
    && (o in r.lin ==> ChargedOk(r, o))
  }

  predicate ChargedOk(r: Record, o: Op)
    requires o < |r.invokedAt| && r.invokedAt[o] < |r.trace| && r.trace[r.invokedAt[o]].Invoked? && o in r.lin
  {
    && r.invokedAt[o] < r.lin[o] < |r.trace|
    && r.trace[r.lin[o]].TookEffect? && r.trace[r.lin[o]].op == o
    && Fits(r.trace[r.invokedAt[o]].call, r.trace[r.lin[o]].effect)
  }

  /** The record stays right when the trace grows by one event. */
  lemma {:induction false} RecordedGrows(r: Record, r': Record, e: Event)
    requires Recorded(r)
    requires r'.trace == r.trace + [e] && r.invokedAt <= r'.invokedAt
    requires forall o :: o in r.lin ==> o in r'.lin && r'.lin[o] == r.lin[o]
    requires forall o :: o in r.returnedAt ==> o in r'.returnedAt && r'.returnedAt[o] == r.returnedAt[o]
    requires forall o :: o in r'.returnedAt ==> o < |r'.invokedAt|
    requires forall o :: o in r'.lin && o !in r.lin ==> o < |r.invokedAt| && OpOk(r', o)
    requires EventOk(r', |r.trace|)
    requires forall o :: |r.invokedAt| <= o < |r'.invokedAt| ==> OpOk(r', o)
    ensures Recorded(r')
  {
    forall i | 0 <= i < |r'.trace| ensures EventOk(r', i) {
      if i < |r.trace| {
        assert EventOk(r, i);
        if r.trace[i].Returned? { assert OpOk(r, r.trace[i].op); }
      }
    }
    forall o | 0 <= o < |r'.invokedAt| ensures OpOk(r', o) {
      if o < |r.invokedAt| { assert OpOk(r, o); }
    }
  }

  /** Only the node the mover was holding may have been linked; the other free nodes are untouched. */
  ghost predicate LinksOnly(q: Queue, q': Queue, node: Option<Node>) {
    forall n :: n in q'.pos && n !in q.pos ==> node == Some(n)
  }

  /** Only the mover's operation may have been charged with its effect. */
  ghost predicate ChargesOnly(r: Record, r': Record, op: Option<Op>) {
    && (forall o :: o in r.lin ==> o in r'.lin && r'.lin[o] == r.lin[o])
    && (forall o :: o in r'.lin && o !in r.lin ==> op == Some(o))
    && (forall o :: o in r'.returnedAt && o !in r.returnedAt ==> op == Some(o))
  }

  lemma StillOwns(q: Queue, q': Queue, r: Record, r': Record, mover: PC, th: Thread)
    requires Owns(q, r, th) && Apart(th.pc, mover)
    requires Evolves(q, q') && Extends(r, r') && LinksOnly(q, q', Private(mover))
    requires ChargesOnly(r, r', CurrentOp(mover))
    ensures Owns(q', r', th)
  {
  }

  // ----- the invariant -----

  ghost predicate ThreadOk(s: State, t: Tid)
    requires t < |s.threads|
  {
    Knows(s.q, s.rec, s.threads[t]) && Owns(s.q, s.rec, s.threads[t])
  }

  ghost predicate Inv(s: State) {
    && Linked(s.q)
    && Recorded(s.rec)
    && Agrees(s.q, s.rec)
    && |s.pace| == |s.threads|
    && (forall t :: 0 <= t < |s.threads| ==> ThreadOk(s, t))
    && (forall t, u :: 0 <= t < |s.threads| && 0 <= u < |s.threads| && t != u ==>
      Apart(s.threads[t].pc, s.threads[u].pc))
  }

  lemma {:induction false} InitialInv(threads: nat)
    ensures Inv(NewLockFreeQueue(threads))
  {
    var s := NewLockFreeQueue(threads);
    assert Contents(s.q) == [];
  }

  /** A thread leaves a step with the operation and node it entered with, fewer, or fresh ones. */
  predicate Inherits(q: Queue, r: Record, p: PC, p': PC) {
    && (var o := CurrentOp(p'); o == None || o == CurrentOp(p) || |r.invokedAt| <= o.value)
    && (var n := Private(p'); n == None || n == Private(p) || |q.value| <= n.value)
  }

  ghost predicate GoodMemory(q: Queue, q': Queue, node: Option<Node>) {
    Linked(q') && Evolves(q, q') && LinksOnly(q, q', node)
  }

  ghost predicate GoodRecord(r: Record, r': Record, op: Option<Op>) {
    Recorded(r') && Extends(r, r') && ChargesOnly(r, r', op)
  }

  ghost predicate GoodThread(q: Queue, r: Record, p: PC, o: Outcome) {
    Knows(o.0, o.1, o.2) && Owns(o.0, o.1, o.2) && Inherits(q, r, p, o.2.pc)
  }

  /** The effects so far, run on a sequence, give what the queue holds. */
  ghost predicate Agrees(q: Queue, r: Record) {
    Linked(q) && Replay(AllEffects(r.trace)) == Some(Contents(q))
  }

  /** All a step has to show about the thread that made it and the memory it changed. */
  ghost predicate GoodOutcome(q: Queue, r: Record, th: Thread, o: Outcome) {
    && GoodMemory(q, o.0, Private(th.pc))
    && GoodRecord(r, o.1, CurrentOp(th.pc))
    && GoodThread(q, r, th.pc, o)
    && Agrees(o.0, o.1)
  }

  lemma {:induction false} UpdateInv(s: State, t: Tid, o: Outcome, pace: Pace)
    requires Inv(s) && t < |s.threads| && GoodOutcome(s.q, s.rec, s.threads[t], o)
    ensures Inv(Update(s, t, o, pace))
  {
    var s' := Update(s, t, o, pace);
    forall u | 0 <= u < |s'.threads| ensures ThreadOk(s', u) {
      if u != t {
        assert ThreadOk(s, u);
        Unaffected(s.q, o.0, s.rec, o.1, s.threads[u]);
        StillOwns(s.q, o.0, s.rec, o.1, s.threads[t].pc, s.threads[u]);
      }
    }
    forall u, w | 0 <= u < |s'.threads| && 0 <= w < |s'.threads| && u != w
      ensures Apart(s'.threads[u].pc, s'.threads[w].pc)
    {
      assert ThreadOk(s, u) && ThreadOk(s, w);
      assert Apart(s.threads[u].pc, s.threads[w].pc);
    }
  }

  lemma {:induction false} EffectsGrow(trace: seq<Event>, e: Event)
    ensures e.TookEffect? ==> AllEffects(trace + [e]) == AllEffects(trace) + [e.effect]
    ensures !e.TookEffect? ==> AllEffects(trace + [e]) == AllEffects(trace)
  {
    assert (trace + [e])[..|trace|] == trace;
  }

  lemma {:induction false} ReplayGrows(log: seq<Effect>, e: Effect)
    ensures Replay(log + [e]) == match Replay(log) case None => None case Some(q) => Apply(q, e)
  {
    assert (log + [e])[..|log|] == log;
  }

  lemma {:induction false} Silent(q: Queue, r: Record, q': Queue, r': Record, e: Event)
    requires Agrees(q, r) && Linked(q') && Contents(q') == Contents(q)
    requires !e.TookEffect? && r'.trace == r.trace + [e]
    ensures Agrees(q', r')
  {
    EffectsGrow(r.trace, e);
  }

  lemma {:induction false} Effects(q: Queue, r: Record, q': Queue, r': Record, e: Event)
    requires Agrees(q, r) && Linked(q') && e.TookEffect? && r'.trace == r.trace + [e]
    requires Apply(Contents(q), e.effect) == Some(Contents(q'))
    ensures Agrees(q', r')
  {
    EffectsGrow(r.trace, e);
    ReplayGrows(AllEffects(r.trace), e.effect);
  }

  // ----- the memory after each operation -----

  lemma SameMemory(q: Queue, node: Option<Node>)
    requires Linked(q)
    ensures GoodMemory(q, q, node)
  {
  }

  lemma {:induction false} AppendMemory(q: Queue, tail: Node, node: Node)
    requires Linked(q) && tail in q.pos && q.pos[tail] <= q.pos[q.tail] && q.next[tail] == None
    requires node < |q.value| && node !in q.pos
    ensures GoodMemory(q, Append(q, tail, node), Some(node))
    ensures Contents(Append(q, tail, node)) == Contents(q) + [q.value[node]]
    ensures Successor(Append(q, tail, node), tail, node)
  {
    NilIsLast(q, tail);
    AppendLinks(q, tail, node);
    AppendContents(q, tail, node);
  }

  lemma {:induction false} SwingTailMemory(q: Queue, from: Node, to: Node, node: Option<Node>)
    requires Linked(q) && Successor(q, from, to)
    ensures GoodMemory(q, SwingTail(q, from, to), node)
    ensures Contents(SwingTail(q, from, to)) == Contents(q)
  {
    SwingTailLinks(q, from, to);
  }

  lemma {:induction false} SwingHeadMemory(q: Queue, to: Node, node: Option<Node>)
    requires Linked(q) && Successor(q, q.head, to) && q.pos[to] <= q.pos[q.tail]
    ensures GoodMemory(q, SwingHead(q, to), node)
  {
    SwingHeadLinks(q, to);
  }

  lemma {:induction false} AllocateMemory(q: Queue, v: int, node: Option<Node>)
    requires Linked(q)
    ensures GoodMemory(q, Allocate(q, v), node)
    ensures Contents(Allocate(q, v)) == Contents(q)
    ensures |q.value| !in q.pos
  {
    AllocateLinks(q, v);
  }

  // ----- every step keeps the invariant -----

  /** What holds before a step of thread th. */
  ghost predicate Ready(q: Queue, r: Record, th: Thread) {
    Linked(q) && Recorded(r) && Agrees(q, r) && Knows(q, r, th) && Owns(q, r, th)
  }

  /** n's next field is what its place on the chain says; all a load of next can reveal. */
  predicate NextOk(q: Queue, n: Node) {
    n < |q.next| && n in q.pos && (q.next[n] != None ==> Successor(q, n, q.next[n].value))
  }

  /** The step reads, compares, or fails to swap; the queue and the record stay as they are. */
  predicate IsLocal(q: Queue, p: PC) {
    match p
    case EnqLoadTail(_, _) => true
    case EnqLoadNext(_, _, tail) => NextOk(q, tail)
    case EnqRecheck(_, _, _, _) => true
    case EnqCasNext(_, node, tail) => tail < |q.next| && node < |q.value| && q.next[tail] != None
    case DeqLoadHead(_) => true
    case DeqLoadTail(_, head) => true
    case DeqLoadNext(_, head, _) => NextOk(q, head) && q.next[head] != None
    case DeqRecheck(_, head, tail, next, _) => !(head == q.head == tail && next == None)
    case DeqReadValue(_, _, next) => next != None && next.value < |q.value|
    case DeqCasHead(_, head, _, _) => q.head != head
    case _ => false
  }

  lemma LocalEnq(q: Queue, r: Record, th: Thread)
    requires Knows(q, r, th) && Owns(q, r, th) && IsLocal(q, th.pc) && q.tail in q.pos
    requires th.pc.EnqLoadTail? || th.pc.EnqLoadNext? || th.pc.EnqRecheck? || th.pc.EnqCasNext?
    ensures var o := Proceed(q, r, th); o.0 == q && o.1 == r && GoodThread(q, r, th.pc, o)
  {
  }

  lemma LocalDeq(q: Queue, r: Record, th: Thread)
    requires Knows(q, r, th) && Owns(q, r, th) && IsLocal(q, th.pc) && q.tail in q.pos && q.head in q.pos
    requires th.pc.DeqLoadHead? || th.pc.DeqLoadNext? || th.pc.DeqReadValue? || th.pc.DeqCasHead?
    ensures var o := Proceed(q, r, th); o.0 == q && o.1 == r && GoodThread(q, r, th.pc, o)
  {
  }

  lemma LocalDeqTail(q: Queue, r: Record, th: Thread)
    requires Knows(q, r, th) && Owns(q, r, th) && th.pc.DeqLoadTail? && Behind(q, q.head, q.tail)
    ensures var o := Proceed(q, r, th); o.0 == q && o.1 == r && GoodThread(q, r, th.pc, o)
  {
  }

  lemma LocalRecheck(q: Queue, r: Record, th: Thread)
    requires Knows(q, r, th) && Owns(q, r, th) && th.pc.DeqRecheck? && IsLocal(q, th.pc)
    requires q.pos[th.pc.head] == q.pos[th.pc.tail] ==> th.pc.head == th.pc.tail
    ensures var o := Proceed(q, r, th); o.0 == q && o.1 == r && GoodThread(q, r, th.pc, o)
  {
  }

  lemma {:induction false} LocalStep(q: Queue, r: Record, th: Thread)
    requires Ready(q, r, th) && IsLocal(q, th.pc)
    ensures GoodOutcome(q, r, th, Proceed(q, r, th))
  {
    SameMemory(q, Private(th.pc));
    if th.pc.DeqLoadTail? { LocalDeqTail(q, r, th); }
    else if th.pc.DeqRecheck? {
      assert PosOk(q, th.pc.head) && PosOk(q, th.pc.tail);
      LocalRecheck(q, r, th);
    }
    else if th.pc.DeqLoadHead? || th.pc.DeqLoadNext? || th.pc.DeqReadValue? || th.pc.DeqCasHead? { LocalDeq(q, r, th); }
    else { LocalEnq(q, r, th); }
  }

  lemma {:induction false} LoadNilRecord(q: Queue, r: Record, op: Op)
    requires Recorded(r) && Agrees(q, r) && op < |r.invokedAt| && Contents(q) == []
    ensures var r' := Emit(r, TookEffect(op, FoundEmpty)); GoodRecord(r, r', Some(op)) && Agrees(q, r')
    ensures SawEmpty(Emit(r, TookEffect(op, FoundEmpty)), op, |r.trace|)
  {
    var e := TookEffect(op, FoundEmpty);
    assert OpOk(r, op);
    RecordedGrows(r, Emit(r, e), e);
    Effects(q, r, q, Emit(r, e), e);
  }

  lemma LoadNilThread(q: Queue, r: Record, th: Thread)
    requires Knows(q, r, th) && Owns(q, r, th) && th.pc.DeqLoadNext? && th.pc.head < |q.next|
    requires q.next[th.pc.head] == None
    requires th.pc.tail == th.pc.head
    requires SawEmpty(Emit(r, TookEffect(th.pc.op, FoundEmpty)), th.pc.op, |r.trace|)
    ensures GoodThread(q, r, th.pc, Proceed(q, r, th))
  {
  }

  lemma {:induction false} NilMeansEmpty(q: Queue, head: Node, tail: Node)
    requires Linked(q) && Behind(q, head, q.head) && Behind(q, head, tail) && Behind(q, tail, q.tail)
    requires q.next[head] == None
    ensures head == tail && Contents(q) == []
  {
    NextIsSuccessor(q, head);
    NextIsSuccessor(q, tail);
    NextIsSuccessor(q, q.head);
  }

  lemma {:induction false} LoadNilStep(q: Queue, r: Record, th: Thread)
    requires Ready(q, r, th) && th.pc.DeqLoadNext? && q.next[th.pc.head] == None
    ensures GoodOutcome(q, r, th, Proceed(q, r, th))
  {
    NilMeansEmpty(q, th.pc.head, th.pc.tail);
    LoadNilRecord(q, r, th.pc.op);
    LoadNilThread(q, r, th);
    SameMemory(q, None);
  }

  lemma {:induction false} ReturnEmptyStep(q: Queue, r: Record, th: Thread)
    requires Ready(q, r, th)
    requires th.pc.DeqRecheck? && th.pc.head == q.head && th.pc.head == th.pc.tail && th.pc.next == None
    ensures GoodOutcome(q, r, th, Proceed(q, r, th))
  {
    var e := Returned(th.pc.op, FoundEmpty);
    var r' := Return(r, th.pc.op, FoundEmpty).(lin := r.lin[th.pc.op := th.pc.seen]);
    SameMemory(q, None);
    assert OpOk(r, th.pc.op);
    RecordedGrows(r, r', e);
    Silent(q, r, q, r', e);
  }

  lemma HelpThread(q: Queue, r: Record, th: Thread)
    requires Knows(q, r, th) && Owns(q, r, th) && (th.pc.EnqHelp? || th.pc.DeqHelp?)
    ensures GoodThread(q, r, th.pc, Proceed(q, r, th))
  {
  }

  lemma {:induction false} HelpStep(q: Queue, r: Record, th: Thread)
    requires Ready(q, r, th) && (th.pc.EnqHelp? || th.pc.DeqHelp?)
    ensures GoodOutcome(q, r, th, Proceed(q, r, th))
  {
    SwingTailMemory(q, th.pc.tail, th.pc.target, Private(th.pc));
    HelpThread(q, r, th);
  }

  lemma AppendThread(q: Queue, r: Record, th: Thread)
    requires Owns(q, r, th) && th.pc.EnqCasNext? && th.pc.tail < |q.next| && q.next[th.pc.tail] == None
    requires Successor(Append(q, th.pc.tail, th.pc.node), th.pc.tail, th.pc.node)
    ensures var o := Proceed(q, r, th);
      GoodThread(q, r, th.pc, o) && o.0 == Append(q, th.pc.tail, th.pc.node) &&
        o.1 == Effective(r, th.pc.op, Enqueued(q.value[th.pc.node]))
  {
  }

  /** What a thread about to append may rely on. */
  lemma AppendReady(q: Queue, r: Record, th: Thread)
    requires Knows(q, r, th) && Owns(q, r, th) && th.pc.EnqCasNext?
    ensures th.pc.tail in q.pos && q.pos[th.pc.tail] <= q.pos[q.tail]
    ensures th.pc.node < |q.value| && th.pc.node !in q.pos
    ensures var op := th.pc.op;
      && op < |r.invokedAt| && op !in r.lin && op !in r.returnedAt
      && r.invokedAt[op] < |r.trace| && r.trace[r.invokedAt[op]] == Invoked(op, Enqueue(q.value[th.pc.node]))
  {
  }

  lemma {:induction false} AppendStep(q: Queue, r: Record, th: Thread)
    requires Ready(q, r, th) && th.pc.EnqCasNext? && q.next[th.pc.tail] == None
    ensures GoodOutcome(q, r, th, Proceed(q, r, th))
  {
    AppendReady(q, r, th);
    var EnqCasNext(op, node, tail) := th.pc;
    AppendMemory(q, tail, node);
    ChargeRecord(q, r, op, Enqueued(q.value[node]), Append(q, tail, node));
    AppendThread(q, r, th);
  }

  lemma {:induction false} EnqReturnStep(q: Queue, r: Record, th: Thread)
    requires Ready(q, r, th) && th.pc.EnqCasTail?
    ensures GoodOutcome(q, r, th, Proceed(q, r, th))
  {
    var e := Returned(th.pc.op, Enqueued(q.value[th.pc.node]));
    var r' := Return(r, th.pc.op, e.effect);
    SwingTailMemory(q, th.pc.tail, th.pc.node, None);
    RecordedGrows(r, r', e);
    Silent(q, r, SwingTail(q, th.pc.tail, th.pc.node), r', e);
  }

  lemma {:induction false} ChargeRecord(q: Queue, r: Record, op: Op, effect: Effect, q': Queue)
    requires Recorded(r) && Agrees(q, r) && op < |r.invokedAt| && op !in r.lin
    requires r.invokedAt[op] < |r.trace| && r.trace[r.invokedAt[op]].Invoked?
    requires Fits(r.trace[r.invokedAt[op]].call, effect)
    requires Linked(q') && Apply(Contents(q), effect) == Some(Contents(q'))
    ensures GoodRecord(r, Effective(r, op, effect), Some(op)) && Agrees(q', Effective(r, op, effect))
  {
    var e := TookEffect(op, effect);
    assert OpOk(r, op);
    RecordedGrows(r, Effective(r, op, effect), e);
    Effects(q, r, q', Effective(r, op, effect), e);
  }

  lemma {:induction false} ReturnRecord(q: Queue, r: Record, op: Op, effect: Effect)
    requires Recorded(r) && Agrees(q, r) && op in r.lin && op !in r.returnedAt
    requires r.lin[op] < |r.trace| && r.trace[r.lin[op]] == TookEffect(op, effect)
    ensures GoodRecord(r, Return(r, op, effect), Some(op)) && Agrees(q, Return(r, op, effect))
  {
    var e := Returned(op, effect);
    RecordedGrows(r, Return(r, op, effect), e);
    Silent(q, r, q, Return(r, op, effect), e);
  }

  lemma {:induction false} DequeueRecord(q: Queue, r: Record, op: Op, v: int, q': Queue)
    requires Recorded(r) && Agrees(q, r) && op < |r.invokedAt| && op !in r.lin && op !in r.returnedAt
    requires r.invokedAt[op] < |r.trace| && r.trace[r.invokedAt[op]] == Invoked(op, Dequeue)
    requires Linked(q') && Contents(q) == [v] + Contents(q')
    ensures var r' := Return(Effective(r, op, Dequeued(v)), op, Dequeued(v));
      GoodRecord(r, r', Some(op)) && Agrees(q', r')
  {
    ChargeRecord(q, r, op, Dequeued(v), q');
    ReturnRecord(q', Effective(r, op, Dequeued(v)), op, Dequeued(v));
  }

  lemma {:induction false} DequeueStep(q: Queue, r: Record, th: Thread)
    requires Ready(q, r, th) && th.pc.DeqCasHead? && q.head == th.pc.head
    ensures GoodOutcome(q, r, th, Proceed(q, r, th))
  {
    SwingHeadMemory(q, th.pc.target, None);
    SwingHeadLinks(q, th.pc.target);
    DequeueRecord(q, r, th.pc.op, th.pc.value, SwingHead(q, th.pc.target));
  }

  lemma {:induction false} BeginRecord(r: Record, call: Call)
    requires Recorded(r)
    ensures GoodRecord(r, Begun(r, call), None)
  {
    RecordedGrows(r, Begun(r, call), Invoked(|r.invokedAt|, call));
  }

  lemma BeginThread(q: Queue, r: Record, th: Thread, call: Call)
    requires Owns(q, r, th) && th.pc.Idle? && Recorded(r) && |q.value| == |q.next|
    requires call.Enqueue? ==> |q.value| !in q.pos
    ensures GoodThread(q, r, th.pc, Begin(q, r, th, call))
  {
  }

  lemma {:induction false} BeginStep(q: Queue, r: Record, th: Thread, call: Call)
    requires Ready(q, r, th) && th.pc.Idle?
    ensures GoodOutcome(q, r, th, Begin(q, r, th, call))
  {
    var o := Begin(q, r, th, call);
    BeginRecord(r, call);
    if call.Enqueue? { AllocateMemory(q, call.v, None); } else { SameMemory(q, None); }
    BeginThread(q, r, th, call);
    Silent(q, r, o.0, o.1, Invoked(|r.invokedAt|, call));
  }

  /** Every step of a thread that is in an operation is one of the seven kinds above. */
  lemma {:induction false} StepKinds(q: Queue, r: Record, th: Thread)
    requires Linked(q) && Knows(q, r, th) && Owns(q, r, th)
    ensures var p := th.pc;
      || p.Idle? || IsLocal(q, p) || p.EnqHelp? || p.DeqHelp? || p.EnqCasTail?
      || (p.EnqCasNext? && q.next[p.tail] == None)
      || (p.DeqLoadNext? && q.next[p.head] == None)
      || (p.DeqRecheck? && p.head == q.head && p.head == p.tail && p.next == None)
      || (p.DeqCasHead? && p.head == q.head)
  {
    match th.pc
    case EnqLoadNext(_, _, tail) => NextIsSuccessor(q, tail);
    case DeqLoadNext(_, head, _) => NextIsSuccessor(q, head);
    case DeqReadValue(_, _, next) => NextIsSuccessor(q, next.value);
    case _ =>
  }

  lemma {:induction false} ProceedStep(q: Queue, r: Record, th: Thread)
    requires Ready(q, r, th) && !th.pc.Idle?
    ensures GoodOutcome(q, r, th, Proceed(q, r, th))
  {
    StepKinds(q, r, th);
    var p := th.pc;
    if IsLocal(q, p) { LocalStep(q, r, th); }
    else if p.EnqHelp? || p.DeqHelp? { HelpStep(q, r, th); }
    else if p.EnqCasTail? { EnqReturnStep(q, r, th); }
    else if p.EnqCasNext? { AppendStep(q, r, th); }
    else if p.DeqLoadNext? { LoadNilStep(q, r, th); }
    else if p.DeqRecheck? { ReturnEmptyStep(q, r, th); }
    else { DequeueStep(q, r, th); }
  }

  lemma {:induction false} ReadyFor(s: State, t: Tid)
    requires Inv(s) && t < |s.threads|
    ensures Ready(s.q, s.rec, s.threads[t])
  {
    assert ThreadOk(s, t);
  }

  lemma {:induction false} GoInv(s: State, t: Tid, pace: Pace)
    requires Inv(s) && t < |s.threads| && !s.threads[t].pc.Idle?
    ensures Inv(Update(s, t, Proceed(s.q, s.rec, s.threads[t]), pace))
  {
    ReadyFor(s, t);
    ProceedStep(s.q, s.rec, s.threads[t]);
    UpdateInv(s, t, Proceed(s.q, s.rec, s.threads[t]), pace);
  }

  lemma {:induction false} StartInv(s: State, t: Tid, call: Call, pace: Pace)
    requires Inv(s) && t < |s.threads| && s.threads[t].pc.Idle?
    ensures Inv(Update(s, t, Begin(s.q, s.rec, s.threads[t], call), pace))
  {
    ReadyFor(s, t);
    BeginStep(s.q, s.rec, s.threads[t], call);
    UpdateInv(s, t, Begin(s.q, s.rec, s.threads[t], call), pace);
  }

  predicate Enabled(s: State, a: Action) {
    a.t < |s.threads| && a.t < |s.pace| && (a.Go? <==> s.threads[a.t].pc != Idle)
  }

  lemma {:induction false} DisabledStep(s: State, a: Action)
    requires !Enabled(s, a)
    ensures Step(s, a) == s
  {
    match a
    case Start(_, _) =>
    case Go(_) =>
  }

  lemma {:induction false} GoStep(s: State, t: Tid)
    requires Enabled(s, Go(t))
    ensures Step(s, Go(t)) == Update(s, t, Proceed(s.q, s.rec, s.threads[t]), s.pace[t].(steps := s.pace[t].steps + 1))
  {
  }

  lemma {:induction false} StartStep(s: State, t: Tid, call: Call)
    requires Enabled(s, Start(t, call))
    ensures Step(s, Start(t, call)) ==
      Update(s, t, Begin(s.q, s.rec, s.threads[t], call), s.pace[t].(started := s.pace[t].started + 1))
  {
  }

  lemma {:induction false} StepInv(s: State, a: Action)
    requires Inv(s)
    ensures Inv(Step(s, a))
  {
    if !Enabled(s, a) {
      DisabledStep(s, a);
    } else {
      match a
      case Go(t) =>
        GoStep(s, t);
        GoInv(s, t, s.pace[t].(steps := s.pace[t].steps + 1));
      case Start(t, call) =>
        StartStep(s, t, call);
        StartInv(s, t, call, s.pace[t].(started := s.pace[t].started + 1));
    }
  }

  lemma {:induction false} RunInv(threads: nat, schedule: seq<Action>)
    ensures Inv(Run(threads, schedule)) && |Run(threads, schedule).threads| == threads
  {
    if schedule == [] {
      InitialInv(threads);
    } else {
      var n := |schedule| - 1;
      RunInv(threads, schedule[..n]);
      StepInv(Run(threads, schedule[..n]), schedule[n]);
    }
  }

  // ----- linearizability -----

  /** Whether event i is the effect that its operation is charged with. */
  predicate Charged(trace: seq<Event>, lin: map<Op, nat>, i: nat)
    requires i < |trace|
  {
    trace[i].TookEffect? && trace[i].op in lin && lin[trace[i].op] == i
  }

  lemma {:induction false} LinearizationGrows(trace: seq<Event>, lin: map<Op, nat>, n: nat)
    requires 0 < n <= |trace|
    ensures Charged(trace, lin, n - 1) ==>
      Linearization(trace[..n], lin) == Linearization(trace[..n - 1], lin) + [trace[n - 1].effect]
    ensures !Charged(trace, lin, n - 1) ==> Linearization(trace[..n], lin) == Linearization(trace[..n - 1], lin)
  {
    assert trace[..n][..n - 1] == trace[..n - 1];
  }

  lemma {:induction false} EffectsUpTo(trace: seq<Event>, n: nat)
    requires 0 < n <= |trace|
    ensures trace[n - 1].TookEffect? ==> AllEffects(trace[..n]) == AllEffects(trace[..n - 1]) + [trace[n - 1].effect]
    ensures !trace[n - 1].TookEffect? ==> AllEffects(trace[..n]) == AllEffects(trace[..n - 1])
  {
    assert trace[..n] == trace[..n - 1] + [trace[n - 1]];
    EffectsGrow(trace[..n - 1], trace[n - 1]);
  }

  /** An effect that its operation is not charged with is an observation of emptiness. */
  lemma {:induction false} UnchargedIsEmpty(r: Record, i: nat)
    requires Recorded(r) && i < |r.trace| && r.trace[i].TookEffect? && !Charged(r.trace, r.lin, i)
    ensures r.trace[i].effect == FoundEmpty
  {
    assert EventOk(r, i);
  }

  lemma {:induction false} ReplayAlike(x: seq<Effect>, y: seq<Effect>, e: Effect)
    requires Replay(x + [e]) != None && (Replay(x) != None ==> Replay(y) == Replay(x))
    ensures Replay(x) != None && Replay(y + [e]) == Replay(x + [e])
    ensures e == FoundEmpty ==> Replay(x + [e]) == Replay(x)
  {
    ReplayGrows(x, e);
    ReplayGrows(y, e);
  }

  /** Leaving out observations of emptiness changes neither the legality nor the result of a log. */
  lemma {:induction false} LinearizationAgrees(r: Record, n: nat)
    requires n <= |r.trace| && Recorded(r)
    requires Replay(AllEffects(r.trace[..n])) != None
    ensures Replay(Linearization(r.trace[..n], r.lin)) == Replay(AllEffects(r.trace[..n]))
  {
    if n > 0 {
      LinearizationGrows(r.trace, r.lin, n);
      EffectsUpTo(r.trace, n);
      var all := AllEffects(r.trace[..n - 1]);
      if Replay(all) != None {
        LinearizationAgrees(r, n - 1);
      }
      if r.trace[n - 1].TookEffect? {
        ReplayAlike(all, Linearization(r.trace[..n - 1], r.lin), r.trace[n - 1].effect);
        if !Charged(r.trace, r.lin, n - 1) {
          UnchargedIsEmpty(r, n - 1);
        }
      }
    }
  }

  /** Run alone and in the order of their effects, the operations behave as a first-in first-out queue
      and leave exactly the values now in the queue. */
  lemma {:induction false} Legal(threads: nat, schedule: seq<Action>)
    ensures var s := Run(threads, schedule);
      Linked(s.q) && Replay(Linearization(s.rec.trace, s.rec.lin)) == Some(Contents(s.q))
  {
    RunInv(threads, schedule);
    var s := Run(threads, schedule);
    assert s.rec.trace[..|s.rec.trace|] == s.rec.trace;
    LinearizationAgrees(s.rec, |s.rec.trace|);
  }

  /** A finished operation took effect exactly once, between its call and its return, with the effect
      that it returned and that its call asks for. */
  lemma {:induction false} EffectWithinInterval(threads: nat, schedule: seq<Action>, i: nat)
    requires var r := Run(threads, schedule).rec; i < |r.trace| && r.trace[i].Returned?
    ensures var r := Run(threads, schedule).rec;
      var Returned(op, effect) := r.trace[i];
      && op < |r.invokedAt| && op in r.lin
      && r.invokedAt[op] < r.lin[op] < i
      && r.trace[r.invokedAt[op]].Invoked? && r.trace[r.invokedAt[op]].op == op &&
        Fits(r.trace[r.invokedAt[op]].call, effect)
      && r.trace[r.lin[op]] == TookEffect(op, effect)
    ensures var r := Run(threads, schedule).rec;
      forall j :: 0 <= j < |r.trace| && r.trace[j].Returned? && r.trace[j].op == r.trace[i].op ==> j == i
  {
    RunInv(threads, schedule);
    var r := Run(threads, schedule).rec;
    assert EventOk(r, i);
    assert OpOk(r, r.trace[i].op);
    forall j | 0 <= j < |r.trace| && r.trace[j].Returned? && r.trace[j].op == r.trace[i].op ensures j == i {
      assert EventOk(r, j);
    }
  }

  /** The order of effects respects real time: what returned before another call began comes first. */
  lemma {:induction false} RealTimeOrder(threads: nat, schedule: seq<Action>, i: nat, j: nat)
    requires var r := Run(threads, schedule).rec; i < j < |r.trace| && r.trace[i].Returned? && r.trace[j].Invoked?
    requires var r := Run(threads, schedule).rec; r.trace[j].op in r.lin
    ensures var r := Run(threads, schedule).rec; r.trace[i].op in r.lin && r.lin[r.trace[i].op] < r.lin[r.trace[j].op]
  {
    RunInv(threads, schedule);
    var r := Run(threads, schedule).rec;
    EffectWithinInterval(threads, schedule, i);
    assert EventOk(r, j);
    assert OpOk(r, r.trace[j].op);
  }

  /** Every enqueue and every successful dequeue that happened is in the linearization, once. */
  lemma {:induction false} NoUnchargedChange(threads: nat, schedule: seq<Action>, i: nat)
    requires var r := Run(threads, schedule).rec; i < |r.trace| && r.trace[i].TookEffect?
    requires var r := Run(threads, schedule).rec; r.trace[i].effect != FoundEmpty
    ensures var r := Run(threads, schedule).rec; r.trace[i].op in r.lin && r.lin[r.trace[i].op] == i
  {
    RunInv(threads, schedule);
    assert EventOk(Run(threads, schedule).rec, i);
  }

  lemma InvNeverPanics(s: State, t: Tid)
    requires t < |s.threads| && ThreadOk(s, t)
    ensures !s.threads[t].pc.Panicked?
  {
  }

  /** A thread never reads a value through a nil next pointer. */
  lemma {:induction false} NeverPanics(threads: nat, schedule: seq<Action>)
    ensures forall t :: 0 <= t < |Run(threads, schedule).threads| ==> !Run(threads, schedule).threads[t].pc.Panicked?
  {
    RunInv(threads, schedule);
    var s := Run(threads, schedule);
    forall t | 0 <= t < |s.threads| ensures !s.threads[t].pc.Panicked? {
      InvNeverPanics(s, t);
    }
  }

  function EnqueuedValues(log: seq<Effect>): seq<int> {
    if log == [] then []
    else EnqueuedValues(log[..|log| - 1]) + (match log[|log| - 1] case Enqueued(v) => [v] case _ => [])
  }

  function DequeuedValues(log: seq<Effect>): seq<int> {
    if log == [] then []
    else DequeuedValues(log[..|log| - 1]) + (match log[|log| - 1] case Dequeued(v) => [v] case _ => [])
  }

  /** A legal log takes values out in the order they went in, and keeps the rest in that order. */
  lemma {:induction false} FirstInFirstOut(log: seq<Effect>)
    requires Replay(log) != None
    ensures EnqueuedValues(log) == DequeuedValues(log) + Replay(log).value
  {
    if log != [] {
      FirstInFirstOut(log[..|log| - 1]);
    }
  }

  /** Nothing is lost, duplicated or reordered, in any interleaving. */
  lemma {:induction false} Conservation(threads: nat, schedule: seq<Action>)
    ensures var s := Run(threads, schedule);
      var log := Linearization(s.rec.trace, s.rec.lin);
      Linked(s.q) && EnqueuedValues(log) == DequeuedValues(log) + Contents(s.q)
  {
    Legal(threads, schedule);
    var s := Run(threads, schedule);
    FirstInFirstOut(Linearization(s.rec.trace, s.rec.lin));
  }

  /** What following next pointers from n for at most k steps reads. */
  function Walk(q: Queue, n: Node, k: nat): seq<int>
    decreases k
  {
    if k == 0 || n >= |q.next| || q.next[n] == None || q.next[n].value >= |q.value| then []
    else [q.value[q.next[n].value]] + Walk(q, q.next[n].value, k - 1)
  }

  lemma {:induction false} WalkReads(q: Queue, nodes: seq<Node>, k: nat)
    requires 0 < |nodes| <= k + 1
    requires forall i :: 0 <= i < |nodes| ==> nodes[i] < |q.next| && nodes[i] < |q.value|
    requires forall i, j :: 0 <= i < j < |nodes| && j == i + 1 ==> q.next[nodes[i]] == Some(nodes[j])
    requires q.next[nodes[|nodes| - 1]] == None
    ensures Walk(q, nodes[0], k) == ValuesOf(q, nodes[1..])
    decreases k
  {
    if 1 < |nodes| {
      assert q.next[nodes[0]] == Some(nodes[1]);
      WalkReads(q, nodes[1..], k - 1);
      assert nodes[1..][1..] == nodes[2..];
    }
  }

  lemma {:induction false} WalkFromHead(q: Queue)
    requires Linked(q)
    ensures Walk(q, q.head, |q.chain|) == Contents(q)
  {
    assert PosOk(q, q.head);
    var nodes := q.chain[q.pos[q.head]..];
    forall i | 0 <= i < |nodes| ensures q.next[nodes[i]] == if i + 1 < |nodes| then Some(nodes[i + 1]) else None {
      assert ChainOk(q, q.pos[q.head] + i);
    }
    assert nodes[|nodes| - 1] == q.chain[|q.chain| - 1] && ChainOk(q, |q.chain| - 1);
    WalkReads(q, nodes, |q.chain|);
    assert nodes[1..] == q.chain[q.pos[q.head] + 1..];
  }

  lemma {:induction false} TailNearEnd(q: Queue)
    requires Linked(q)
    ensures q.tail < |q.next|
    ensures q.next[q.tail] == None || (q.next[q.tail].value < |q.next| && q.next[q.next[q.tail].value] == None)
  {
    NextIsSuccessor(q, q.tail);
    if q.next[q.tail] != None { NextIsSuccessor(q, q.next[q.tail].value); }
  }

  /** In every reachable state tail is on the list, at or after head, with at most one node after it,
      and walking the next pointers from head reads exactly the contents. */
  lemma {:induction false} Shape(threads: nat, schedule: seq<Action>)
    ensures var q := Run(threads, schedule).q;
      && Linked(q)
      && Walk(q, q.head, |q.chain|) == Contents(q)
      && q.tail < |q.next| && q.pos[q.head] <= q.pos[q.tail]
      && (q.next[q.tail] == None || (q.next[q.tail].value < |q.next| && q.next[q.next[q.tail].value] == None))
  {
    RunInv(threads, schedule);
    WalkFromHead(Run(threads, schedule).q);
    TailNearEnd(Run(threads, schedule).q);
  }

  // ----- progress -----

  lemma Overlap(q: Queue, r: Record, th: Thread)
    requires Knows(q, r, th) && th.mark <= Successes(q)
    ensures Proceed(q, r, th).2.failed != th.failed ==> th.mark < Successes(Proceed(q, r, th).0)
  {
  }

  /** An iteration that goes round again without returning overlapped a successful CAS: the count of
      successes is now larger than when the iteration began. */
  lemma {:induction false} FailedIterationOverlapsCas(threads: nat, schedule: seq<Action>, t: Tid)
    requires t < threads && |Run(threads, schedule).threads| == threads
    requires var s := Run(threads, schedule); |Step(s, Go(t)).threads| == threads
    requires var s := Run(threads, schedule); Step(s, Go(t)).threads[t].failed != s.threads[t].failed
    ensures var s := Run(threads, schedule); s.threads[t].mark < Successes(Step(s, Go(t)).q)
  {
    var s := Run(threads, schedule);
    RunInv(threads, schedule);
    ReadyFor(s, t);
    Overlap(s.q, s.rec, s.threads[t]);
  }

  function TotalFailed(threads: seq<Thread>): nat {
    if threads == [] then 0 else TotalFailed(threads[..|threads| - 1]) + threads[|threads| - 1].failed
  }

  function TotalSteps(pace: seq<Pace>): nat {
    if pace == [] then 0 else TotalSteps(pace[..|pace| - 1]) + pace[|pace| - 1].steps
  }

  function TotalStarted(pace: seq<Pace>): nat {
    if pace == [] then 0 else TotalStarted(pace[..|pace| - 1]) + pace[|pace| - 1].started
  }

  lemma {:induction false} TotalFailedBound(threads: seq<Thread>, bound: nat)
    requires forall t :: 0 <= t < |threads| ==> threads[t].failed <= bound
    ensures TotalFailed(threads) <= |threads| * bound
  {
    if threads != [] {
      TotalFailedBound(threads[..|threads| - 1], bound);
      assert |threads| * bound == (|threads| - 1) * bound + bound;
    }
  }

  lemma {:induction false} TotalStartedUpdate(pace: seq<Pace>, t: Tid, p: Pace)
    requires t < |pace|
    ensures TotalStarted(pace[t := p]) == TotalStarted(pace) - pace[t].started + p.started
  {
    var n := |pace| - 1;
    if t < n {
      assert pace[t := p][..n] == pace[..n][t := p];
      TotalStartedUpdate(pace[..n], t, p);
    } else {
      assert pace[t := p][..n] == pace[..n];
    }
  }

  /** How far into an iteration a thread is. */
  function Rank(p: PC): nat {
    match p
    case Idle => 6
    case EnqLoadTail(_, _) => 0
    case EnqLoadNext(_, _, _) => 1
    case EnqRecheck(_, _, _, _) => 2
    case EnqCasNext(_, _, _) => 3
    case EnqHelp(_, _, _, _) => 3
    case EnqCasTail(_, _, _) => 4
    case DeqLoadHead(_) => 0
    case DeqLoadTail(_, _) => 1
    case DeqLoadNext(_, _, _) => 2
    case DeqRecheck(_, _, _, _, _) => 3
    case DeqHelp(_, _, _) => 4
    case DeqReadValue(_, _, _) => 4
    case DeqCasHead(_, _, _, _) => 5
    case Panicked(_) => 6
  }

  /** A thread makes at most six steps in an iteration. */
  predicate Paced(th: Thread, p: Pace) {
    p.steps + 6 <= 6 * (p.started + th.failed) + Rank(th.pc)
  }

  lemma ProceedPaced(q: Queue, r: Record, th: Thread, p: Pace)
    requires Paced(th, p) && !th.pc.Idle? && !th.pc.Panicked?
    ensures Paced(Proceed(q, r, th).2, p.(steps := p.steps + 1))
  {
  }

  /** Operations take effect at most once each, so effects are at most as many as operations. */
  ghost predicate Counted(q: Queue, r: Record) {
    q.appends + q.headMoves <= |r.lin|
  }

  lemma ProceedCounted(q: Queue, r: Record, th: Thread)
    requires Counted(q, r) && Knows(q, r, th) && Owns(q, r, th)
    ensures Counted(Proceed(q, r, th).0, Proceed(q, r, th).1)
  {
  }

  ghost predicate PaceInv(s: State) {
    && |s.pace| == |s.threads|
    && Counted(s.q, s.rec)
    && TotalStarted(s.pace) == |s.rec.invokedAt|
    && (forall t :: 0 <= t < |s.threads| ==> Paced(s.threads[t], s.pace[t]))
  }

  lemma {:induction false} UpdatePace(s: State, t: Tid, o: Outcome, p: Pace)
    requires PaceInv(s) && t < |s.threads|
    requires Counted(o.0, o.1) && Paced(o.2, p) && |o.1.invokedAt| - |s.rec.invokedAt| == p.started - s.pace[t].started
    ensures PaceInv(Update(s, t, o, p))
  {
    TotalStartedUpdate(s.pace, t, p);
  }

  lemma ProceedInvokes(q: Queue, r: Record, th: Thread)
    ensures Proceed(q, r, th).1.invokedAt == r.invokedAt
  {
  }

  lemma {:induction false} GoPace(s: State, t: Tid)
    requires PaceInv(s) && t < |s.threads| && s.threads[t].pc != Idle && Knows(s.q, s.rec, s.threads[t])
    requires Owns(s.q, s.rec, s.threads[t])
    ensures PaceInv(Step(s, Go(t)))
  {
    var th, pace := s.threads[t], s.pace[t];
    assert Paced(th, pace);
    ProceedPaced(s.q, s.rec, th, pace);
    ProceedCounted(s.q, s.rec, th);
    ProceedInvokes(s.q, s.rec, th);
    UpdatePace(s, t, Proceed(s.q, s.rec, th), pace.(steps := pace.steps + 1));
  }

  lemma {:induction false} StartPace(s: State, t: Tid, call: Call)
    requires PaceInv(s) && t < |s.threads| && s.threads[t].pc == Idle
    ensures PaceInv(Step(s, Start(t, call)))
  {
    var th, pace := s.threads[t], s.pace[t];
    assert Paced(th, pace);
    UpdatePace(s, t, Begin(s.q, s.rec, th, call), pace.(started := pace.started + 1));
  }

  lemma {:induction false} StepPace(s: State, a: Action)
    requires PaceInv(s)
    requires a.t < |s.threads| ==> Knows(s.q, s.rec, s.threads[a.t]) && Owns(s.q, s.rec, s.threads[a.t])
    ensures PaceInv(Step(s, a))
  {
    if a.t < |s.threads| {
      var idle := s.threads[a.t].pc == Idle;
      if a.Go? && !idle { GoPace(s, a.t); }
      else if a.Start? && idle { StartPace(s, a.t, a.call); }
      else { assert Step(s, a) == s; }
    }
  }

  lemma {:induction false} InitialPace(threads: nat)
    ensures TotalStarted(seq(threads, _ => Pace(0, 0))) == 0
  {
    if threads > 0 {
      assert seq(threads, _ => Pace(0, 0))[..threads - 1] == seq(threads - 1, _ => Pace(0, 0));
      InitialPace(threads - 1);
    }
  }

  lemma {:induction false} RunPace(threads: nat, schedule: seq<Action>)
    ensures PaceInv(Run(threads, schedule))
  {
    if schedule == [] {
      InitialPace(threads);
    } else {
      var n := |schedule| - 1;
      RunPace(threads, schedule[..n]);
      RunInv(threads, schedule[..n]);
      if schedule[n].t < threads { ReadyFor(Run(threads, schedule[..n]), schedule[n].t); }
      StepPace(Run(threads, schedule[..n]), schedule[n]);
    }
  }

  lemma {:induction false} TotalStepsBound(threads: seq<Thread>, pace: seq<Pace>)
    requires |threads| == |pace| && forall t :: 0 <= t < |threads| ==> Paced(threads[t], pace[t])
    ensures TotalSteps(pace) <= 6 * (TotalStarted(pace) + TotalFailed(threads))
  {
    if threads != [] {
      var n := |threads| - 1;
      assert Paced(threads[n], pace[n]);
      forall t | 0 <= t < n ensures Paced(threads[..n][t], pace[..n][t]) {
        assert Paced(threads[t], pace[t]);
      }
      TotalStepsBound(threads[..n], pace[..n]);
    }
  }

  /** Successful CASes are at most two for each operation ever called. */
  lemma {:induction false} SuccessesBound(s: State)
    requires Inv(s) && PaceInv(s)
    ensures s.q.tailMoves <= s.q.appends && s.q.headMoves <= s.q.appends
    ensures Successes(s.q) <= 2 * |s.rec.invokedAt|
  {
    BelowIsFew(s.rec.lin.Keys, |s.rec.invokedAt|);
    assert |s.rec.lin| == |s.rec.lin.Keys|;
  }

  lemma {:induction false} StepArithmetic(n: nat, k: nat, successes: nat, failed: nat, steps: nat)
    requires successes <= 2 * k && failed <= n * successes && steps <= 6 * (k + failed)
    ensures steps <= 6 * k * (1 + 2 * n)
  {
    assert n * successes <= n * (2 * k);
    assert 6 * (k + n * (2 * k)) == 6 * k * (1 + 2 * n);
  }

  /** The queue is lock-free: whatever the schedule, n threads that have called k operations between
      them have gone round a loop again at most n times per successful CAS, and have made at most
      6k(1 + 2n) steps; so no run goes on for ever without an operation finishing. */
  lemma {:induction false} LockFree(threads: nat, schedule: seq<Action>)
    ensures var s := Run(threads, schedule);
      && TotalFailed(s.threads) <= threads * Successes(s.q)
      && s.q.tailMoves <= s.q.appends && s.q.headMoves <= s.q.appends
      && TotalSteps(s.pace) <= 6 * |s.rec.invokedAt| * (1 + 2 * threads)
  {
    var s := Run(threads, schedule);
    var k := |s.rec.invokedAt|;
    RunInv(threads, schedule);
    RunPace(threads, schedule);
    SuccessesBound(s);
    forall t | 0 <= t < |s.threads| ensures s.threads[t].failed <= Successes(s.q) {
      assert ThreadOk(s, t);
    }
    TotalFailedBound(s.threads, Successes(s.q));
    TotalStepsBound(s.threads, s.pace);
    StepArithmetic(threads, k, Successes(s.q), TotalFailed(s.threads), TotalSteps(s.pace));
  }
}
