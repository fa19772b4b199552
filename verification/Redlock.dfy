/**
 The quorum lock of systems-engineering/distributed-systems/impl/dlock_lab/redlock_sim.py.

 Any number of redlock attempts run at once over the same nodes.  Each try_lock, each unlock and each
 reading of the clock is one step; between steps the clock may advance.  Times are reals.
*/
module Redlock {
  import opened Sequences
  import opened Sets

  type Key = string
  type Owner = string

  datatype Lock = Lock(owner: Owner, expiresAt: real)

  type Locks = map<Key, Lock>

  // ----- one node -----

  predicate Available(locks: Locks, key: Key, now: real) {
    key !in locks || now > locks[key].expiresAt
  }

  function AfterTryLock(locks: Locks, key: Key, owner: Owner, ttl: real, now: real): Locks {
    if Available(locks, key, now) then locks[key := Lock(owner, now + ttl)] else locks
  }

  function AfterUnlock(locks: Locks, key: Key, owner: Owner): Locks {
    if key in locks && locks[key].owner == owner then locks - {key} else locks
  }

  predicate HoldsOwner(locks: Locks, owner: Owner) {
    exists k :: k in locks && locks[k].owner == owner
  }

  class FakeRedis {
    var locks: Locks

    constructor ()
      ensures locks == map[]
    {
      locks := map[];
    }

    method TryLock(key: Key, owner: Owner, ttl: real, now: real) returns (ok: bool)
      modifies this
      ensures ok <==> key !in old(locks) || now > old(locks)[key].expiresAt
      ensures locks == if ok then old(locks)[key := Lock(owner, now + ttl)] else old(locks)
    {
      if key !in locks || now > locks[key].expiresAt {
        locks := locks[key := Lock(owner, now + ttl)];
        return true;
      }
      return false;
    }

    method Unlock(key: Key, owner: Owner)
      modifies this
      ensures locks == if key in old(locks) && old(locks)[key].owner == owner then old(locks) - {key} else old(locks)
    {
      if key in locks && locks[key].owner == owner {
        locks := locks - {key};
      }
    }
  }

  predicate Reads(nodes: seq<FakeRedis>, contents: seq<Locks>)
    reads nodes
  {
    |contents| == |nodes| && forall i :: 0 <= i < |nodes| ==> nodes[i].locks == contents[i]
  }

  /** The nodes after each has been asked, node i at times[i]. */
  function AfterLocking(before: seq<Locks>, key: Key, owner: Owner, ttl: real, times: seq<real>): (after: seq<Locks>)
    requires |times| == |before|
  {
    seq(|before|, i requires 0 <= i < |before| => AfterTryLock(before[i], key, owner, ttl, times[i]))
  }

  /** The nodes after a failed attempt: what it took is gone, the rest is as it was. */
  function AfterGivingUp(before: seq<Locks>, key: Key, times: seq<real>): seq<Locks>
    requires |times| == |before|
  {
    seq(|before|, i requires 0 <= i < |before| => if Available(before[i], key, times[i]) then before[i] - {key}
      else before[i])
  }

  method LockAll(nodes: seq<FakeRedis>, key: Key, owner: Owner, ttl: real, times: seq<real>, ghost before: seq<Locks>)
      returns (successes: nat, lockedNodes: seq<nat>)
    requires |times| == |nodes| && Distinct(nodes) && Reads(nodes, before)
    modifies nodes
    ensures lockedNodes == Acquired(before, key, times, |nodes|) && successes == |lockedNodes|
    ensures Reads(nodes, AfterLocking(before, key, owner, ttl, times))
  {
    successes, lockedNodes := 0, [];
    for i := 0 to |nodes|
      invariant successes == |lockedNodes| && lockedNodes == Acquired(before, key, times, i)
      invariant forall j :: 0 <= j < i ==> nodes[j].locks == AfterTryLock(before[j], key, owner, ttl, times[j])
      invariant forall j :: i <= j < |nodes| ==> nodes[j].locks == before[j]
    {
      var got := nodes[i].TryLock(key, owner, ttl, times[i]);
      if got {
        successes := successes + 1;
        lockedNodes := lockedNodes + [i];
      }
    }
  }

  method UnlockAll(nodes: seq<FakeRedis>, key: Key, owner: Owner, lockedNodes: seq<nat>, ghost held: seq<Locks>)
    requires Distinct(nodes) && Reads(nodes, held)
    requires forall k :: 0 <= k < |lockedNodes| ==> lockedNodes[k] < |nodes|
    requires forall k, l :: 0 <= k < l < |lockedNodes| ==> lockedNodes[k] != lockedNodes[l]
    modifies nodes
    ensures forall i :: 0 <= i < |nodes| ==>
      nodes[i].locks == if i in lockedNodes then AfterUnlock(held[i], key, owner) else held[i]
  {
    for k := 0 to |lockedNodes|
      invariant forall i :: 0 <= i < |nodes| ==>
        nodes[i].locks == if i in lockedNodes[..k] then AfterUnlock(held[i], key, owner) else held[i]
    {
      assert lockedNodes[..k + 1] == lockedNodes[..k] + [lockedNodes[k]];
      nodes[lockedNodes[k]].Unlock(key, owner);
    }
    assert lockedNodes[..|lockedNodes|] == lockedNodes;
  }

  /** One attempt that nothing else interleaves with; t1, times and t2 are its readings of the clock.
      It succeeds exactly when a quorum of the nodes was available and time is left. */
  method RedlockAlone(nodes: seq<FakeRedis>, key: Key, owner: Owner, ttl: real, quorum: int,
                      t1: real, times: seq<real>, t2: real, ghost before: seq<Locks>) returns (ok: bool)
    requires |times| == |nodes| && Distinct(nodes) && Reads(nodes, before)
    modifies nodes
    ensures ok <==> |Acquired(before, key, times, |nodes|)| >= quorum && t2 - t1 < ttl
    ensures Reads(nodes, if ok then AfterLocking(before, key, owner, ttl, times) else AfterGivingUp(before, key, times))
  {
    var successes, lockedNodes := LockAll(nodes, key, owner, ttl, times, before);
    AcquiredExactly(before, key, times, |nodes|);
    var elapsed := t2 - t1;
    var validTime := ttl - elapsed;
    if successes >= quorum && validTime > 0.0 {
      return true;
    }
    UnlockAll(nodes, key, owner, lockedNodes, AfterLocking(before, key, owner, ttl, times));
    return false;
  }

  /** The nodes among the first n that were available when they were asked. */
  function Acquired(before: seq<Locks>, key: Key, times: seq<real>, n: nat): seq<nat>
    requires n <= |before| && n <= |times|
  {
    if n == 0 then []
    else Acquired(before, key, times, n - 1) + (if Available(before[n - 1], key, times[n - 1]) then [n - 1] else [])
  }

  lemma {:induction false} AcquiredExactly(before: seq<Locks>, key: Key, times: seq<real>, n: nat)
    requires n <= |before| && n <= |times|
    ensures var a := Acquired(before, key, times, n);
      && (forall i: nat :: i in a <==> i < n && (key !in before[i] || times[i] > before[i][key].expiresAt))
      && (forall k :: 0 <= k < |a| ==> a[k] < n)
      && Distinct(a)
  {
    if n > 0 {
      AcquiredExactly(before, key, times, n - 1);
      var a, b := Acquired(before, key, times, n), Acquired(before, key, times, n - 1);
      assert a == b || a == b + [n - 1];
      assert forall k :: 0 <= k < |b| ==> a[k] == b[k];
    }
  }

  // ----- concurrent attempts -----

  datatype Request = Request(key: Key, owner: Owner, ttl: real, quorum: int)

  datatype Phase =
    | Waiting
    | Locking(t1: real, i: nat, locked: seq<nat>)
    | Held(t1: real, t2: real)
    | Releasing(todo: seq<nat>)
    | Failed

  /** acquired is auxiliary: when each node was locked. */
  datatype Attempt = Attempt(request: Request, phase: Phase, acquired: map<nat, real>)

  datatype State = State(nodes: seq<Locks>, clock: real, attempts: seq<Attempt>)

  datatype Action = Advance(d: real) | Go(a: nat)

  function Initial(n: nat, clock: real, requests: seq<Request>): State {
    State(seq(n, _ => map[]), clock,
      seq(|requests|, i requires 0 <= i < |requests| => Attempt(requests[i], Waiting, map[])))
  }

  function Step(s: State, action: Action): State {
    match action
    case Advance(d) => if d < 0.0 then s else s.(clock := s.clock + d)
    case Go(a) =>
      if a >= |s.attempts| then s
      else
        var at := s.attempts[a];
        match at.phase
        case Waiting => SetPhase(s, a, Locking(s.clock, 0, []))
        case Locking(t1, i, locked) =>
          if i < |s.nodes| then TryNode(s, a)
          else if |locked| >= at.request.quorum && at.request.ttl - (s.clock - t1) > 0.0 then
            SetPhase(s, a, Held(t1, s.clock))
          else SetPhase(s, a, Releasing(locked))
        case Held(_, _) => s
        case Releasing(todo) =>
          if todo == [] then SetPhase(s, a, Failed)
          else
            var s1 := SetPhase(s, a, Releasing(todo[1..]));
            var n := todo[0];
            if n < |s.nodes| then s1.(nodes := s.nodes[n := AfterUnlock(s.nodes[n], at.request.key, at.request.owner)])
              else s1
        case Failed => s
  }

  function SetPhase(s: State, a: nat, phase: Phase): State
    requires a < |s.attempts|
  {
    s.(attempts := s.attempts[a := s.attempts[a].(phase := phase)])
  }

  function TryNode(s: State, a: nat): State
    requires a < |s.attempts| && s.attempts[a].phase.Locking? && s.attempts[a].phase.i < |s.nodes|
  {
    var at := s.attempts[a];
    var r, i, ph := at.request, at.phase.i, at.phase;
    if Available(s.nodes[i], r.key, s.clock) then
      s.(nodes := s.nodes[i := AfterTryLock(s.nodes[i], r.key, r.owner, r.ttl, s.clock)],
         attempts := s.attempts[a := Attempt(r, ph.(i := i + 1, locked := ph.locked + [i]), at.acquired[i := s.clock])])
    else SetPhase(s, a, ph.(i := i + 1))
  }

  function Run(s: State, schedule: seq<Action>): State
    decreases |schedule|
  {
    if schedule == [] then s else Run(Step(s, schedule[0]), schedule[1..])
  }

  // ----- the invariant -----

  predicate Holding(at: Attempt) {
    at.phase.Locking? || at.phase.Held?
  }

  ghost predicate AttemptOk(s: State, a: nat)
    requires a < |s.attempts|
  {
    var at := s.attempts[a];
    match at.phase
    case Waiting => at.acquired == map[]
    case Locking(t1, i, locked) =>
      && i <= |s.nodes| && t1 <= s.clock && |locked| == |at.acquired|
      && (forall n :: n in locked <==> n in at.acquired)
      && (forall n :: n in at.acquired ==> n < i && t1 <= at.acquired[n] <= s.clock)
    case Held(t1, t2) =>
      && |at.acquired| >= at.request.quorum && t1 <= t2 < t1 + at.request.ttl && t2 <= s.clock
      && (forall n :: n in at.acquired ==> n < |s.nodes| && t1 <= at.acquired[n] <= t2)
    case Releasing(todo) => forall n :: n in todo ==> n < |s.nodes|
    case Failed => true
  }

  /** An acquired lock is still in place unless it has expired. */
  ghost predicate Secured(s: State, a: nat)
    requires a < |s.attempts|
  {
    var at := s.attempts[a];
    Holding(at) ==> forall n :: n in at.acquired && n < |s.nodes| ==>
      || s.clock > at.acquired[n] + at.request.ttl
      || (at.request.key in s.nodes[n] &&
        s.nodes[n][at.request.key] == Lock(at.request.owner, at.acquired[n] + at.request.ttl))
  }

  /** An attempt's owner is found only under its key and only where the attempt still has to clean up. */
  ghost predicate Traced(s: State, a: nat)
    requires a < |s.attempts|
  {
    var at := s.attempts[a];
    forall n, k :: 0 <= n < |s.nodes| && k in s.nodes[n] && s.nodes[n][k].owner == at.request.owner ==>
      && k == at.request.key
      && match at.phase
         case Waiting => false
         case Locking(_, _, locked) => n in locked
         case Held(_, _) => true
         case Releasing(todo) => n in todo
         case Failed => false
  }

  /** Two attempts on one key never share a node within each other's time to live. */
  ghost predicate Spaced(a: Attempt, b: Attempt) {
    Holding(a) && Holding(b) && a.request.key == b.request.key ==>
      forall n :: n in a.acquired && n in b.acquired ==>
        a.acquired[n] > b.acquired[n] + b.request.ttl || b.acquired[n] > a.acquired[n] + a.request.ttl
  }

  ghost predicate DistinctOwners(requests: seq<Request>) {
    forall i, j :: 0 <= i < j < |requests| ==> requests[i].owner != requests[j].owner
  }

  ghost predicate Inv(s: State) {
    && (forall a :: 0 <= a < |s.attempts| ==> AttemptOk(s, a) && Secured(s, a) && Traced(s, a))
    && (forall a, b :: 0 <= a < |s.attempts| && 0 <= b < |s.attempts| && a != b ==>
          s.attempts[a].request.owner != s.attempts[b].request.owner && Spaced(s.attempts[a], s.attempts[b]))
  }

  lemma InitialInv(n: nat, clock: real, requests: seq<Request>)
    requires DistinctOwners(requests)
    ensures Inv(Initial(n, clock, requests))
  {
  }

  lemma {:induction false} AdvanceInv(s: State, d: real)
    requires Inv(s) && d >= 0.0
    ensures Inv(s.(clock := s.clock + d))
  {
    var s' := s.(clock := s.clock + d);
    forall a | 0 <= a < |s.attempts| ensures AttemptOk(s', a) && Secured(s', a) && Traced(s', a) {
      assert AttemptOk(s, a) && Secured(s, a) && Traced(s, a);
    }
  }

  lemma {:induction false} PhaseInv(s: State, a: nat, phase: Phase)
    requires Inv(s) && a < |s.attempts| && AttemptOk(SetPhase(s, a, phase), a) && Traced(SetPhase(s, a, phase), a)
    requires Holding(s.attempts[a]) || (!phase.Held? && (phase.Locking? ==> s.attempts[a].acquired == map[]))
    ensures Inv(SetPhase(s, a, phase))
  {
    var s' := SetPhase(s, a, phase);
    forall b | 0 <= b < |s.attempts| ensures AttemptOk(s', b) && Secured(s', b) && Traced(s', b) {
      assert AttemptOk(s, b) && Secured(s, b) && Traced(s, b);
    }
    forall b, c | 0 <= b < |s.attempts| && 0 <= c < |s.attempts| && b != c
      ensures s'.attempts[b].request.owner != s'.attempts[c].request.owner && Spaced(s'.attempts[b], s'.attempts[c]) {
      assert Spaced(s.attempts[b], s.attempts[c]);
    }
  }

  lemma {:induction false} UnlockSecured(s: State, a: nat, b: nat)
    requires a < |s.attempts| && s.attempts[a].phase.Releasing? && s.attempts[a].phase.todo != [] && b < |s.attempts|
    requires AttemptOk(s, b) && Secured(s, b) && (a != b ==> s.attempts[a].request.owner != s.attempts[b].request.owner)
    ensures AttemptOk(Step(s, Go(a)), b) && Secured(Step(s, Go(a)), b)
  {
    if a == b {
      var todo := s.attempts[a].phase.todo;
      assert forall n :: n in todo[1..] ==> n in todo;
    }
  }

  lemma {:induction false} UnlockTraced(s: State, a: nat, b: nat)
    requires a < |s.attempts| && s.attempts[a].phase.Releasing? && s.attempts[a].phase.todo != [] && b < |s.attempts|
    requires Traced(s, b)
    ensures Traced(Step(s, Go(a)), b)
  {
    var todo := s.attempts[a].phase.todo;
    assert forall n :: n in todo <==> n == todo[0] || n in todo[1..];
  }

  lemma {:induction false} UnlockInv(s: State, a: nat)
    requires Inv(s) && a < |s.attempts| && s.attempts[a].phase.Releasing? && s.attempts[a].phase.todo != []
    ensures Inv(Step(s, Go(a)))
  {
    var s' := Step(s, Go(a));
    forall b | 0 <= b < |s.attempts| ensures AttemptOk(s', b) && Secured(s', b) && Traced(s', b) {
      assert AttemptOk(s, b) && Secured(s, b) && Traced(s, b);
      UnlockSecured(s, a, b);
      UnlockTraced(s, a, b);
    }
    forall b, c | 0 <= b < |s.attempts| && 0 <= c < |s.attempts| && b != c
      ensures s'.attempts[b].request.owner != s'.attempts[c].request.owner && Spaced(s'.attempts[b], s'.attempts[c]) {
      assert Spaced(s.attempts[b], s.attempts[c]);
    }
  }

  predicate CanTry(s: State, a: nat) {
    a < |s.attempts| && s.attempts[a].phase.Locking? && s.attempts[a].phase.i < |s.nodes|
  }

  lemma {:induction false} TryNodeSelf(s: State, a: nat)
    requires CanTry(s, a) && AttemptOk(s, a)
    ensures AttemptOk(TryNode(s, a), a)
  {
    var at, s' := s.attempts[a], TryNode(s, a);
    var i := at.phase.i;
    if Available(s.nodes[i], at.request.key, s.clock) {
      var at' := s'.attempts[a];
      assert at'.phase.locked == at.phase.locked + [i];
      assert i !in at.acquired;
      assert at'.acquired.Keys == at.acquired.Keys + {i};
      assert |at'.acquired| == |at.acquired| + 1;
    }
  }

  lemma TryNodeSecured(s: State, a: nat, b: nat)
    requires CanTry(s, a) && b < |s.attempts| && AttemptOk(s, b) && Secured(s, b)
    ensures Secured(TryNode(s, a), b)
  {
  }

  lemma TryNodeTraced(s: State, a: nat, b: nat)
    requires CanTry(s, a) && b < |s.attempts| && Traced(s, b)
    requires a != b ==> s.attempts[a].request.owner != s.attempts[b].request.owner
    ensures Traced(TryNode(s, a), b)
  {
  }

  lemma TryNodeSpaced(s: State, a: nat, b: nat)
    requires CanTry(s, a) && b < |s.attempts| && a != b && AttemptOk(s, a) && Secured(s, b)
    requires Spaced(s.attempts[a], s.attempts[b]) && Spaced(s.attempts[b], s.attempts[a])
    ensures var s' := TryNode(s, a); Spaced(s'.attempts[a], s'.attempts[b]) && Spaced(s'.attempts[b], s'.attempts[a])
  {
  }

  lemma {:induction false} TryNodeInv(s: State, a: nat)
    requires Inv(s) && a < |s.attempts| && s.attempts[a].phase.Locking? && s.attempts[a].phase.i < |s.nodes|
    ensures Inv(TryNode(s, a))
  {
    var s' := TryNode(s, a);
    forall b | 0 <= b < |s.attempts| ensures AttemptOk(s', b) && Secured(s', b) && Traced(s', b) {
      assert AttemptOk(s, b) && Secured(s, b) && Traced(s, b);
      TryNodeSecured(s, a, b);
      TryNodeTraced(s, a, b);
      if a == b { TryNodeSelf(s, a); }
    }
    forall b | 0 <= b < |s.attempts| && b != a
      ensures Spaced(s'.attempts[a], s'.attempts[b]) && Spaced(s'.attempts[b], s'.attempts[a]) {
      assert AttemptOk(s, a) && Secured(s, b);
      TryNodeSpaced(s, a, b);
    }
    forall b, c | 0 <= b < |s.attempts| && 0 <= c < |s.attempts| && b != c
      ensures s'.attempts[b].request.owner != s'.attempts[c].request.owner && Spaced(s'.attempts[b], s'.attempts[c]) {
      assert Spaced(s.attempts[b], s.attempts[c]);
    }
  }

  lemma {:induction false} StepInv(s: State, action: Action)
    requires Inv(s)
    ensures Inv(Step(s, action))
  {
    match action
    case Advance(d) => if d >= 0.0 { AdvanceInv(s, d); }
    case Go(a) =>
      if a < |s.attempts| {
        var at := s.attempts[a];
        assert AttemptOk(s, a) && Traced(s, a);
        match at.phase
        case Waiting => PhaseInv(s, a, Locking(s.clock, 0, []));
        case Locking(t1, i, locked) =>
          if i < |s.nodes| { TryNodeInv(s, a); }
          else if |locked| >= at.request.quorum &&
            at.request.ttl - (s.clock - t1) > 0.0 { PhaseInv(s, a, Held(t1, s.clock)); }
          else { PhaseInv(s, a, Releasing(locked)); }
        case Releasing(todo) => if todo == [] { PhaseInv(s, a, Failed); } else { UnlockInv(s, a); }
        case _ =>
      }
  }

  lemma {:induction false} RunInv(s: State, schedule: seq<Action>)
    requires Inv(s)
    ensures Inv(Run(s, schedule))
    ensures |Run(s, schedule).nodes| == |s.nodes| && |Run(s, schedule).attempts| == |s.attempts|
    ensures forall a :: 0 <= a < |s.attempts| ==> Run(s, schedule).attempts[a].request == s.attempts[a].request
    decreases |schedule|
  {
    if schedule != [] {
      StepInv(s, schedule[0]);
      RunInv(Step(s, schedule[0]), schedule[1..]);
    }
  }

  // ----- mutual exclusion -----

  /** Two sets of nodes that together outnumber the nodes have one in common. */
  lemma {:induction false} QuorumsMeet(x: set<nat>, y: set<nat>, n: nat)
    requires forall e :: e in x || e in y ==> e < n
    requires |x| + |y| > n
    ensures exists e :: e in x && e in y
  {
    if x * y == {} {
      assert |x + y| == |x| + |y|;
      BelowIsFew(x + y, n);
    } else {
      var e :| e in x * y;
      assert e in x && e in y;
    }
  }

  /** The time during which a successful attempt may consider the lock its own. */
  predicate Within(at: Attempt, t: real)
    requires at.phase.Held?
  {
    at.phase.t2 <= t <= at.phase.t1 + at.request.ttl
  }

  /** Two attempts hold one lock at one time. */
  ghost predicate Clash(a: Attempt, b: Attempt) {
    a.phase.Held? && b.phase.Held? && a.request.key == b.request.key && exists t :: Within(a, t) && Within(b, t)
  }

  /** In every interleaving, two successful attempts whose quorums must meet are never valid at once. */
  lemma {:induction false} Exclusion(n: nat, clock: real, requests: seq<Request>, schedule: seq<Action>, a: nat, b: nat)
    requires DistinctOwners(requests) && a < |requests| && b < |requests| && a != b
    requires Needed(requests[a]) + Needed(requests[b]) > n
    ensures var s := Run(Initial(n, clock, requests), schedule);
      |s.attempts| == |requests| && !Clash(s.attempts[a], s.attempts[b])
  {
    var s0 := Initial(n, clock, requests);
    var s := Run(s0, schedule);
    InitialInv(n, clock, requests);
    RunInv(s0, schedule);
    assert s0.attempts[a].request == requests[a] && s0.attempts[b].request == requests[b];
    var x, y := s.attempts[a], s.attempts[b];
    if Clash(x, y) {
      assert AttemptOk(s, a) && AttemptOk(s, b) && Spaced(x, y);
      QuorumsMeet(x.acquired.Keys, y.acquired.Keys, n);
      assert false;
    }
  }

  /** A failed attempt leaves no node holding its owner. */
  lemma {:induction false} FailureLeavesNothing(n: nat, clock: real, requests: seq<Request>, schedule: seq<Action>,
                                                a: nat)
    requires DistinctOwners(requests) && a < |requests|
    ensures var s := Run(Initial(n, clock, requests), schedule);
      && |s.attempts| == |requests|
      && (s.attempts[a].phase == Failed ==> forall m :: 0 <= m < |s.nodes| ==>
        !HoldsOwner(s.nodes[m], requests[a].owner))
  {
    var s0 := Initial(n, clock, requests);
    var s := Run(s0, schedule);
    InitialInv(n, clock, requests);
    RunInv(s0, schedule);
    assert s0.attempts[a].request == requests[a];
    assert Traced(s, a);
  }

  // ----- an attempt that the others leave alone -----

  function Repeat(a: nat, k: nat): seq<Action> {
    seq(k, _ => Go(a))
  }

  lemma {:induction false} RunAppend(s: State, x: seq<Action>, y: seq<Action>)
    ensures Run(s, x + y) == Run(Run(s, x), y)
    decreases |x|
  {
    if x == [] {
      assert x + y == y;
    } else {
      assert (x + y)[0] == x[0] && (x + y)[1..] == x[1..] + y;
      RunAppend(Step(s, x[0]), x[1..], y);
    }
  }

  /** The nodes on which, when they are asked, nobody holds the key, or only a lock that has expired. */
  function FreeNodes(nodes: seq<Locks>, key: Key, times: seq<real>): set<nat>
    requires |times| == |nodes|
  {
    set i: nat | i < |nodes| && (key !in nodes[i] || times[i] > nodes[i][key].expiresAt)
  }

  /** Those among the first k. */
  function FreeUpTo(nodes: seq<Locks>, key: Key, times: seq<real>, k: nat): set<nat>
    requires |times| == |nodes|
  {
    set i | i in FreeNodes(nodes, key, times) && i < k
  }

  /** The nodes when the first k have been asked, each at its time, for the lock of r: the free ones have it. */
  function Locked(nodes: seq<Locks>, r: Request, times: seq<real>, k: nat): seq<Locks>
    requires |times| == |nodes|
  {
    seq(|nodes|, i requires 0 <= i < |nodes| =>
      if i in FreeUpTo(nodes, r.key, times, k) then nodes[i][r.key := Lock(r.owner, times[i] + r.ttl)] else nodes[i])
  }

  /** The clock when the first k nodes have been asked. */
  function TimeAfter(t1: real, times: seq<real>, k: nat): real
    requires k <= |times|
  {
    if k == 0 then t1 else times[k - 1]
  }

  /** The clock does not go back from t1, over times, to t2. */
  predicate Forward(t1: real, times: seq<real>, t2: real) {
    && t1 <= t2 && (forall i :: 0 <= i < |times| ==> t1 <= times[i] <= t2)
    && forall i, j :: 0 <= i < j < |times| ==> times[i] <= times[j]
  }

  /** An attempt begun at time t1 has asked the first k nodes and locked those that were free. */
  ghost predicate HasAsked(before: seq<Locks>, s: State, a: nat, r: Request, t1: real, times: seq<real>, k: nat) {
    && |times| == |before| && k <= |before|
    && s.clock == TimeAfter(t1, times, k) && s.nodes == Locked(before, r, times, k)
    && a < |s.attempts| && s.attempts[a].request == r
    && (var p := s.attempts[a].phase;
        p.Locking? && p.t1 == t1 && p.i == k && |p.locked| == |FreeUpTo(before, r.key, times, k)|)
  }

  lemma {:induction false} NodeAsked(before: seq<Locks>, r: Request, times: seq<real>, k: nat)
    requires |times| == |before| && k < |before|
    ensures var now, free := Locked(before, r, times, k), k in FreeNodes(before, r.key, times);
      && (Available(now[k], r.key, times[k]) <==> free)
      && Locked(before, r, times, k + 1) == now[k := AfterTryLock(now[k], r.key, r.owner, r.ttl, times[k])]
      && |FreeUpTo(before, r.key, times, k + 1)| == |FreeUpTo(before, r.key, times, k)| + if free then 1 else 0
  {
    var x, y := FreeUpTo(before, r.key, times, k), FreeUpTo(before, r.key, times, k + 1);
    assert y == if k in FreeNodes(before, r.key, times) then x + {k} else x;
  }

  lemma {:induction false} AsksOne(before: seq<Locks>, s: State, a: nat, r: Request, t1: real, times: seq<real>, k: nat)
    requires HasAsked(before, s, a, r, t1, times, k) && k < |before| && s.clock <= times[k]
    ensures var s' := Step(Step(s, Advance(times[k] - s.clock)), Go(a));
      HasAsked(before, s', a, r, t1, times, k + 1) && |s'.attempts| == |s.attempts|
  {
    NodeAsked(before, r, times, k);
    var now := Step(s, Advance(times[k] - s.clock));
    assert now == s.(clock := times[k]);
  }

  /** The steps in which an attempt asks k nodes, and the passing of time before each. */
  function Asks(a: nat, t1: real, times: seq<real>, k: nat): seq<Action>
    requires k <= |times|
  {
    if k == 0 then []
    else Asks(a, t1, times, k - 1) + [Advance(times[k - 1] - TimeAfter(t1, times, k - 1)), Go(a)]
  }

  lemma RunTwo(s: State, x: Action, y: Action)
    ensures Run(s, [x, y]) == Step(Step(s, x), y)
  {
    assert [x, y][1..] == [y] && [y][1..] == [];
    assert Run(Step(s, x), [y]) == Run(Step(Step(s, x), y), []);
  }

  lemma {:induction false} AsksNone(s: State, a: nat, times: seq<real>)
    requires a < |s.attempts| && s.attempts[a].phase == Waiting && |times| == |s.nodes|
    ensures HasAsked(s.nodes, Step(s, Go(a)), a, s.attempts[a].request, s.clock, times, 0)
    ensures |Step(s, Go(a)).attempts| == |s.attempts|
  {
  }

  lemma {:induction false} AsksMore(before: seq<Locks>, s: State, a: nat, r: Request, t1: real, times: seq<real>,
                                    t2: real, k: nat)
    requires HasAsked(before, s, a, r, t1, times, 0) && k <= |times| && Forward(t1, times, t2)
    ensures var s' := Run(s, Asks(a, t1, times, k));
      HasAsked(before, s', a, r, t1, times, k) && |s'.attempts| == |s.attempts|
  {
    if k > 0 {
      AsksMore(before, s, a, r, t1, times, t2, k - 1);
      var now := Run(s, Asks(a, t1, times, k - 1));
      AsksOne(before, now, a, r, t1, times, k - 1);
      var pause := Advance(times[k - 1] - now.clock);
      RunAppend(s, Asks(a, t1, times, k - 1), [pause, Go(a)]);
      RunTwo(now, pause, Go(a));
    }
  }

  lemma {:induction false} HoldsIfEnough(before: seq<Locks>, s: State, a: nat, r: Request, t1: real, times: seq<real>,
                                         t2: real)
    requires HasAsked(before, s, a, r, t1, times, |before|) && s.clock <= t2
    ensures var s' := Step(Step(s, Advance(t2 - s.clock)), Go(a));
      && s'.nodes == s.nodes && |s'.attempts| == |s.attempts|
      && (s'.attempts[a].phase.Held? <==> |FreeNodes(before, r.key, times)| >= r.quorum && t2 - t1 < r.ttl)
      && (s'.attempts[a].phase.Held? ||
          (s'.attempts[a].phase.Releasing? && |s'.attempts[a].phase.todo| <= |before|))
  {
    assert FreeUpTo(before, r.key, times, |before|) == FreeNodes(before, r.key, times);
    BelowIsFew(FreeNodes(before, r.key, times), |before|);
  }

  /** The steps of one attempt, begun at t1, that asks the nodes at times and looks at the clock again at t2. */
  function WholeAttempt(a: nat, t1: real, times: seq<real>, t2: real): seq<Action> {
    [Go(a)] + Asks(a, t1, times, |times|) + [Advance(t2 - TimeAfter(t1, times, |times|)), Go(a)]
  }

  lemma {:induction false} RunWhole(s: State, a: nat, t1: real, times: seq<real>, t2: real)
    ensures Run(s, WholeAttempt(a, t1, times, t2)) ==
      Step(Step(Run(Step(s, Go(a)), Asks(a, t1, times, |times|)), Advance(t2 - TimeAfter(t1, times, |times|))), Go(a))
  {
    var asks, pause := Asks(a, t1, times, |times|), Advance(t2 - TimeAfter(t1, times, |times|));
    RunAppend(s, [Go(a)] + asks, [pause, Go(a)]);
    RunAppend(s, [Go(a)], asks);
    assert [Go(a)][1..] == [] && Run(s, [Go(a)]) == Run(Step(s, Go(a)), []);
    RunTwo(Run(Step(s, Go(a)), asks), pause, Go(a));
  }

  /** Attempt a has not begun; it may take these times. */
  ghost predicate CanBegin(s: State, requests: seq<Request>, a: nat, times: seq<real>, t2: real) {
    && a < |requests| && a < |s.attempts| && s.attempts[a].phase == Waiting
    && |times| == |s.nodes| && Forward(s.clock, times, t2)
  }

  /** In every reachable state an attempt that has not begun, and that no other interleaves with, gets the lock
      exactly when nobody holds it, or only a lock that has expired, on a quorum of the nodes at the times when
      they are asked, and less than its time to live has passed then; and it has asked all nodes and locked just
      the free ones. */
  lemma {:induction false} AloneHoldsExactly(n: nat, clock: real, requests: seq<Request>, schedule: seq<Action>,
                                             a: nat, times: seq<real>, t2: real)
    requires DistinctOwners(requests)
    requires CanBegin(Run(Initial(n, clock, requests), schedule), requests, a, times, t2)
    ensures var s, r := Run(Initial(n, clock, requests), schedule), requests[a];
      var s' := Run(s, WholeAttempt(a, s.clock, times, t2));
      && |s'.attempts| == |requests| && |s.nodes| == n && s'.nodes == Locked(s.nodes, r, times, n)
      && (s'.attempts[a].phase.Held? <==> |FreeNodes(s.nodes, r.key, times)| >= r.quorum && t2 - s.clock < r.ttl)
      && (s'.attempts[a].phase.Held? || (s'.attempts[a].phase.Releasing? && |s'.attempts[a].phase.todo| <= n))
  {
    var s0 := Initial(n, clock, requests);
    InitialInv(n, clock, requests);
    RunInv(s0, schedule);
    assert s0.attempts[a].request == requests[a];
    var s := Run(s0, schedule);
    AsksNone(s, a, times);
    var begun := Step(s, Go(a));
    AsksMore(s.nodes, begun, a, requests[a], s.clock, times, t2, n);
    HoldsIfEnough(s.nodes, Run(begun, Asks(a, s.clock, times, n)), a, requests[a], s.clock, times, t2);
    RunWhole(s, a, s.clock, times, t2);
  }

  lemma {:induction false} Releases(s: State, a: nat, k: nat)
    requires a < |s.attempts|
    requires var p := s.attempts[a].phase; p == Failed || (p.Releasing? && |p.todo| < k)
    ensures var s' := Run(s, Repeat(a, k)); |s'.attempts| == |s.attempts| && s'.attempts[a].phase == Failed
    decreases k
  {
    if k > 0 {
      assert Repeat(a, k)[1..] == Repeat(a, k - 1);
      Releases(Step(s, Go(a)), a, k - 1);
    }
  }

  /** And when it does not get the lock it gives up within n + 1 steps more, and no node holds its owner. */
  lemma {:induction false} AloneGivesUp(n: nat, clock: real, requests: seq<Request>, schedule: seq<Action>,
                                        a: nat, times: seq<real>, t2: real)
    requires DistinctOwners(requests)
    requires CanBegin(Run(Initial(n, clock, requests), schedule), requests, a, times, t2)
    requires var s, r := Run(Initial(n, clock, requests), schedule), requests[a];
      !(|FreeNodes(s.nodes, r.key, times)| >= r.quorum && t2 - s.clock < r.ttl)
    ensures var t1 := Run(Initial(n, clock, requests), schedule).clock;
      var s := Run(Initial(n, clock, requests), schedule + WholeAttempt(a, t1, times, t2) + Repeat(a, n + 1));
      && |s.attempts| == |requests| && s.attempts[a].phase == Failed
      && forall m :: 0 <= m < |s.nodes| ==> !HoldsOwner(s.nodes[m], requests[a].owner)
  {
    var s0 := Initial(n, clock, requests);
    var whole := WholeAttempt(a, Run(s0, schedule).clock, times, t2);
    AloneHoldsExactly(n, clock, requests, schedule, a, times, t2);
    RunAppend(s0, schedule + whole, Repeat(a, n + 1));
    RunAppend(s0, schedule, whole);
    Releases(Run(s0, schedule + whole), a, n + 1);
    FailureLeavesNothing(n, clock, requests, schedule + whole + Repeat(a, n + 1), a);
  }

  lemma {:induction false} AllFree(nodes: seq<Locks>, key: Key, times: seq<real>, t1: real, t2: real)
    requires |times| == |nodes| && Forward(t1, times, t2)
    requires forall i :: 0 <= i < |nodes| && key in nodes[i] ==> t1 > nodes[i][key].expiresAt
    ensures |FreeNodes(nodes, key, times)| == |nodes|
  {
    AllBelow(FreeNodes(nodes, key, times), |nodes|);
  }

  /** A lock that nobody gives up does not block its key for ever: once every lock on it has expired, the next
      attempt that nothing interleaves with, and that is not too slow, gets it on every node. */
  lemma {:induction false} ExpiredIsTaken(n: nat, clock: real, requests: seq<Request>, schedule: seq<Action>, a: nat,
                                          times: seq<real>, t2: real)
    requires DistinctOwners(requests)
    requires CanBegin(Run(Initial(n, clock, requests), schedule), requests, a, times, t2)
    requires var s, r := Run(Initial(n, clock, requests), schedule), requests[a];
      && t2 - s.clock < r.ttl && r.quorum <= n
      && forall i :: 0 <= i < |s.nodes| && r.key in s.nodes[i] ==> s.clock > s.nodes[i][r.key].expiresAt
    ensures var s, r := Run(Initial(n, clock, requests), schedule), requests[a];
      var s' := Run(s, WholeAttempt(a, s.clock, times, t2));
      && |s'.attempts| == |requests| && |s'.nodes| == |times| == n && s'.attempts[a].phase.Held?
      && forall i :: 0 <= i < n ==> r.key in s'.nodes[i] && s'.nodes[i][r.key] == Lock(r.owner, times[i] + r.ttl)
  {
    var s := Run(Initial(n, clock, requests), schedule);
    AloneHoldsExactly(n, clock, requests, schedule, a, times, t2);
    AllFree(s.nodes, requests[a].key, times, s.clock, t2);
  }

  // ----- without meeting quorums there is no exclusion -----

  /** Attempt a has asked the next k nodes, alone. */
  ghost predicate Asked(s: State, s': State, a: nat, k: nat, got: nat) {
    && a < |s.attempts| && s.attempts[a].phase.Locking?
    && s'.clock == s.clock && |s'.nodes| == |s.nodes| && |s'.attempts| == |s.attempts|
    && (forall b :: 0 <= b < |s.attempts| && b != a ==> s'.attempts[b] == s.attempts[b])
    && s'.attempts[a].request == s.attempts[a].request
    && (var p, p' := s.attempts[a].phase, s'.attempts[a].phase;
        p'.Locking? && p'.t1 == p.t1 && p'.i == p.i + k && |p'.locked| == |p.locked| + got)
  }

  lemma {:induction false} TakesFreeNodes(s: State, a: nat, k: nat)
    requires a < |s.attempts| && s.attempts[a].phase.Locking? && s.attempts[a].phase.i + k <= |s.nodes|
    requires forall m :: s.attempts[a].phase.i <= m < s.attempts[a].phase.i + k ==>
      s.attempts[a].request.key !in s.nodes[m]
    ensures var s' := Run(s, Repeat(a, k));
      var i, r := s.attempts[a].phase.i, s.attempts[a].request;
      && Asked(s, s', a, k, k)
      && (forall m :: 0 <= m < |s.nodes| ==>
            s'.nodes[m] == if i <= m < i + k then s.nodes[m][r.key := Lock(r.owner, s.clock + r.ttl)] else s.nodes[m])
    decreases k
  {
    if k > 0 {
      assert Repeat(a, k)[1..] == Repeat(a, k - 1);
      TakesFreeNodes(TryNode(s, a), a, k - 1);
    }
  }

  lemma {:induction false} SkipsTakenNodes(s: State, a: nat, k: nat)
    requires a < |s.attempts| && s.attempts[a].phase.Locking? && s.attempts[a].phase.i + k <= |s.nodes|
    requires forall m :: s.attempts[a].phase.i <= m < s.attempts[a].phase.i + k ==>
      !Available(s.nodes[m], s.attempts[a].request.key, s.clock)
    ensures var s' := Run(s, Repeat(a, k)); Asked(s, s', a, k, 0) && s'.nodes == s.nodes
    decreases k
  {
    if k > 0 {
      assert Repeat(a, k)[1..] == Repeat(a, k - 1);
      SkipsTakenNodes(TryNode(s, a), a, k - 1);
    }
  }

  /** The first attempt takes q nodes and pauses, the second takes the rest, both then finish. */
  function SplitSchedule(n: nat, q: nat): seq<Action>
    requires q <= n
  {
    [Go(0), Go(1)] + Repeat(0, q) + Repeat(1, q) + Repeat(1, n - q) + Repeat(0, n - q) + [Go(0), Go(1)]
  }

  lemma {:induction false} RunPair(s: State)
    ensures Run(s, [Go(0), Go(1)]) == Step(Step(s, Go(0)), Go(1))
  {
    assert [Go(0), Go(1)][1..] == [Go(1)];
    assert [Go(1)][1..] == [];
    assert Run(Step(s, Go(0)), [Go(1)]) == Run(Step(Step(s, Go(0)), Go(1)), []);
  }

  lemma {:induction false} RunSplit(s0: State, n: nat, q: nat)
    requires q <= n
    ensures Run(s0, SplitSchedule(n, q)) ==
      Run(Run(Run(Run(Run(Run(s0, [Go(0), Go(1)]), Repeat(0, q)), Repeat(1, q)), Repeat(1, n - q)), Repeat(0, n - q)),
        [Go(0), Go(1)])
  {
    var w := [Go(0), Go(1)];
    RunAppend(s0, w, Repeat(0, q));
    RunAppend(s0, w + Repeat(0, q), Repeat(1, q));
    RunAppend(s0, w + Repeat(0, q) + Repeat(1, q), Repeat(1, n - q));
    RunAppend(s0, w + Repeat(0, q) + Repeat(1, q) + Repeat(1, n - q), Repeat(0, n - q));
    RunAppend(s0, w + Repeat(0, q) + Repeat(1, q) + Repeat(1, n - q) + Repeat(0, n - q), w);
  }

  /** Both attempts have asked every node, all at time zero, and have split the nodes at q. */
  ghost predicate SplitState(s: State, n: nat, q: nat, x: Request, y: Request) {
    && q <= n && |s.attempts| == 2 && |s.nodes| == n && s.clock == 0.0
    && s.attempts[0].request == x && s.attempts[1].request == y
    && (var p := s.attempts[0].phase; p.Locking? && p.t1 == 0.0 && p.i == n && |p.locked| == q)
    && (var p := s.attempts[1].phase; p.Locking? && p.t1 == 0.0 && p.i == n && |p.locked| == n - q)
  }

  /** The first attempt has taken the first q nodes, the second has asked i of them; all at time zero. */
  ghost predicate HalfSplit(s: State, n: nat, q: nat, i: nat, x: Request, y: Request) {
    && q <= n && |s.attempts| == 2 && |s.nodes| == n && s.clock == 0.0
    && s.attempts[0].request == x && s.attempts[1].request == y
    && (var p := s.attempts[0].phase; p.Locking? && p.t1 == 0.0 && p.i == q && |p.locked| == q)
    && (var p := s.attempts[1].phase; p.Locking? && p.t1 == 0.0 && p.i == i && |p.locked| == 0)
    && (forall m :: 0 <= m < q ==> x.key in s.nodes[m] && s.nodes[m][x.key].expiresAt == x.ttl)
    && (forall m :: q <= m < n ==> x.key !in s.nodes[m])
  }

  lemma {:induction false} FirstHalf(n: nat, q: nat, x: Request, y: Request, s1: State)
    requires x.ttl > 0.0 && q <= n && s1 == Step(Step(Initial(n, 0.0, [x, y]), Go(0)), Go(1))
    ensures HalfSplit(Run(s1, Repeat(0, q)), n, q, 0, x, y)
  {
    TakesFreeNodes(s1, 0, q);
  }

  lemma {:induction false} SecondHalf(n: nat, q: nat, x: Request, y: Request, s3: State)
    requires x.key == y.key && y.ttl > 0.0 && HalfSplit(s3, n, q, q, x, y)
    ensures SplitState(Run(Run(s3, Repeat(1, n - q)), Repeat(0, n - q)), n, q, x, y)
  {
    TakesFreeNodes(s3, 1, n - q);
    SkipsTakenNodes(Run(s3, Repeat(1, n - q)), 0, n - q);
  }

  lemma {:induction false} SplitReached(n: nat, q: nat, x: Request, y: Request, s1: State)
    requires x.key == y.key && x.owner != y.owner && x.ttl > 0.0 && y.ttl > 0.0 && q <= n
    requires s1 == Step(Step(Initial(n, 0.0, [x, y]), Go(0)), Go(1))
    ensures SplitState(Run(Run(Run(Run(s1, Repeat(0, q)), Repeat(1, q)), Repeat(1, n - q)), Repeat(0, n - q)), n, q, x,
      y)
  {
    var s2 := Run(s1, Repeat(0, q));
    FirstHalf(n, q, x, y, s1);
    SkipsTakenNodes(s2, 1, q);
    SecondHalf(n, q, x, y, Run(s2, Repeat(1, q)));
  }

  lemma {:induction false} SplitClashes(s: State, n: nat, q: nat, x: Request, y: Request)
    requires SplitState(s, n, q, x, y) && x.key == y.key && x.ttl > 0.0 && y.ttl > 0.0 && x.quorum <= q
    requires y.quorum <= n - q
    ensures var s' := Step(Step(s, Go(0)), Go(1)); |s'.attempts| == 2 && Clash(s'.attempts[0], s'.attempts[1])
  {
    var s' := Step(Step(s, Go(0)), Go(1));
    assert Within(s'.attempts[0], 0.0) && Within(s'.attempts[1], 0.0);
  }

  /** How many nodes an attempt must have locked to succeed. */
  function Needed(r: Request): nat {
    if r.quorum < 0 then 0 else r.quorum
  }

  /** When two quorums need not meet, some interleaving gives the lock to both at once. */
  lemma {:induction false} ClashWhenQuorumsCanMiss(n: nat, x: Request, y: Request)
    requires x.key == y.key && x.owner != y.owner && x.ttl > 0.0 && y.ttl > 0.0 && Needed(x) + Needed(y) <= n
    ensures var s := Run(Initial(n, 0.0, [x, y]), SplitSchedule(n, Needed(x)));
      |s.attempts| == 2 && Clash(s.attempts[0], s.attempts[1])
  {
    var s0, q := Initial(n, 0.0, [x, y]), Needed(x);
    RunSplit(s0, n, q);
    RunPair(s0);
    SplitReached(n, q, x, y, Step(Step(s0, Go(0)), Go(1)));
    var s5 := Run(Run(Run(Run(Step(Step(s0, Go(0)), Go(1)), Repeat(0, q)), Repeat(1, q)), Repeat(1, n - q)),
      Repeat(0, n - q));
    RunPair(s5);
    SplitClashes(s5, n, q, x, y);
  }

  ghost predicate NeverClash(n: nat, x: Request, y: Request) {
    forall schedule :: var s := Run(Initial(n, 0.0, [x, y]), schedule);
      |s.attempts| == 2 && !Clash(s.attempts[0], s.attempts[1])
  }

  /** Exclusion between two requests for one lock holds exactly when their quorums outnumber the nodes;
      for one common quorum, exactly when twice the quorum does. */
  lemma {:induction false} ExclusionExactly(n: nat, x: Request, y: Request)
    requires x.key == y.key && x.owner != y.owner && x.ttl > 0.0 && y.ttl > 0.0
    ensures NeverClash(n, x, y) <==> Needed(x) + Needed(y) > n
  {
    if Needed(x) + Needed(y) > n {
      forall schedule ensures var s := Run(Initial(n, 0.0, [x, y]), schedule);
          |s.attempts| == 2 && !Clash(s.attempts[0], s.attempts[1])
      {
        Exclusion(n, 0.0, [x, y], schedule, 0, 1);
      }
    } else {
      ClashWhenQuorumsCanMiss(n, x, y);
    }
  }
}
