/**
 The event loop of engineering/nodejs/runtime/event-loop-bootstrap/event-loop.js: how it drains the
 nextTick and microtask queues.

 A callback is what it adds to the two queues, in order: a finite tree.  Whatever else it does, and a
 callback that throws, is outside this model.
*/
module EventLoop {
  datatype Kind = Tick | Micro

  datatype Callback = Callback(id: nat, pushes: seq<Push>)

  /** A callback on its way into a queue, or run from it. */
  datatype Push = Push(kind: Kind, callback: Callback)

  datatype Queues = Queues(ticks: seq<Callback>, micros: seq<Callback>)

  // ----- the rule -----

  function OfKind(ps: seq<Push>, k: Kind): seq<Callback> {
    if ps == [] then [] else (if ps[0].kind == k then [ps[0].callback] else []) + OfKind(ps[1..], k)
  }

  function Queue(q: Queues, k: Kind): seq<Callback> {
    if k == Tick then q.ticks else q.micros
  }

  function Size(p: Push): nat
    decreases p, 0
  {
    1 + SizeAll(p.callback.pushes)
  }

  function SizeAll(ps: seq<Push>): nat
    decreases ps, 1
  {
    if ps == [] then 0 else Size(ps[0]) + SizeAll(ps[1..])
  }

  function Weight(cs: seq<Callback>, k: Kind): nat {
    if cs == [] then 0 else Size(Push(k, cs[0])) + Weight(cs[1..], k)
  }

  function Load(q: Queues): nat {
    Weight(q.ticks, Tick) + Weight(q.micros, Micro)
  }

  /** A pending microtask goes first, except that a drain starts with a nextTick when there is one. */
  function Next(q: Queues, first: bool): Kind {
    if q.micros != [] && (!first || q.ticks == []) then Micro else Tick
  }

  predicate Empty(q: Queues) {
    q.ticks == [] && q.micros == []
  }

  function Tail(q: Queues, k: Kind): Queues
    requires Queue(q, k) != []
  {
    if k == Tick then q.(ticks := q.ticks[1..]) else q.(micros := q.micros[1..])
  }

  function Pushed(q: Queues, c: Callback): Queues {
    Queues(q.ticks + OfKind(c.pushes, Tick), q.micros + OfKind(c.pushes, Micro))
  }

  function AfterRun(q: Queues, k: Kind): Queues
    requires Queue(q, k) != []
  {
    Pushed(Tail(q, k), Queue(q, k)[0])
  }

  lemma {:induction false} WeightJoins(a: seq<Callback>, b: seq<Callback>, k: Kind)
    ensures Weight(a + b, k) == Weight(a, k) + Weight(b, k)
  {
    if a == [] {
      assert a + b == b;
    } else {
      assert (a + b)[1..] == a[1..] + b;
      WeightJoins(a[1..], b, k);
    }
  }

  lemma {:induction false} KindsWeigh(ps: seq<Push>)
    ensures Weight(OfKind(ps, Tick), Tick) + Weight(OfKind(ps, Micro), Micro) == SizeAll(ps)
  {
    if ps != [] {
      KindsWeigh(ps[1..]);
      OfKindFront(ps);
      assert OfKind(ps, ps[0].kind)[1..] == OfKind(ps[1..], ps[0].kind);
    }
  }

  lemma {:induction false} RunLightens(q: Queues, k: Kind)
    requires Queue(q, k) != []
    ensures Load(AfterRun(q, k)) == Load(q) - 1
  {
    var c, t := Queue(q, k)[0], Tail(q, k);
    WeightJoins(t.ticks, OfKind(c.pushes, Tick), Tick);
    WeightJoins(t.micros, OfKind(c.pushes, Micro), Micro);
    KindsWeigh(c.pushes);
  }

  /** What a drain runs, in order. */
  function Drain(q: Queues, first: bool): seq<Push>
    decreases Load(q)
  {
    if Empty(q) then []
    else
      var k := Next(q, first);
      RunLightens(q, k);
      [Push(k, Queue(q, k)[0])] + Drain(AfterRun(q, k), false)
  }

  // ----- what follows from the rule -----

  function AllPushed(trace: seq<Push>, k: Kind): seq<Callback> {
    if trace == [] then [] else OfKind(trace[0].callback.pushes, k) + AllPushed(trace[1..], k)
  }

  /** The queue of kind k and all that a trace adds to it, seen from the start of the trace's first callback
      and from its end. */
  lemma {:induction false} TraceFront(q: Queues, e: Kind, rest: seq<Push>, k: Kind)
    requires Queue(q, e) != []
    ensures var trace, ran := [Push(e, Queue(q, e)[0])] + rest, if e == k then [Queue(q, e)[0]] else [];
      && OfKind(trace, k) == ran + OfKind(rest, k)
      && Queue(q, k) + AllPushed(trace, k) == ran + (Queue(AfterRun(q, e), k) + AllPushed(rest, k))
  {
    var c := Queue(q, e)[0];
    var trace, ran := [Push(e, c)] + rest, if e == k then [c] else [];
    assert trace[1..] == rest;
    var added, later, tail := OfKind(c.pushes, k), AllPushed(rest, k), Queue(Tail(q, e), k);
    assert AllPushed(trace, k) == added + later;
    assert Queue(AfterRun(q, e), k) == tail + added;
    assert Queue(q, k) == ran + tail;
    Regroup(ran, tail, added, later);
  }

  lemma Regroup<T>(a: seq<T>, b: seq<T>, c: seq<T>, d: seq<T>)
    ensures a + b + (c + d) == a + (b + c + d)
  {
  }

  /** Each queue is first in, first out, and nothing is left in it: what a drain runs of a kind is what
      was in that queue and then what was added to it, in the order it was added. */
  lemma {:induction false} FirstInFirstOut(q: Queues, first: bool, k: Kind)
    ensures OfKind(Drain(q, first), k) == Queue(q, k) + AllPushed(Drain(q, first), k)
    decreases Load(q)
  {
    if !Empty(q) {
      var e := Next(q, first);
      RunLightens(q, e);
      FirstInFirstOut(AfterRun(q, e), false, k);
      TraceFront(q, e, Drain(AfterRun(q, e), false), k);
    }
  }

  lemma PrefixFront<T>(a: seq<T>, b: seq<T>, c: seq<T>)
    requires b <= c
    ensures a + b <= a + c
  {
  }

  /** No callback is run before it is queued. */
  lemma {:induction false} NothingRunsEarly(q: Queues, first: bool, i: nat, k: Kind)
    requires i < |Drain(q, first)|
    ensures var d := Drain(q, first); OfKind(d[..i + 1], k) <= Queue(q, k) + AllPushed(d[..i], k)
    decreases Load(q)
  {
    var e := Next(q, first);
    RunLightens(q, e);
    var rest := Drain(AfterRun(q, e), false);
    TraceFront(q, e, rest[..i], k);
    DrainPrefix(q, first, i + 1);
    if i == 0 {
      assert rest[..0] == [] && Drain(q, first)[..0] == [];
    } else {
      NothingRunsEarly(AfterRun(q, e), false, i - 1, k);
      TraceFront(q, e, rest[..i - 1], k);
      DrainPrefix(q, first, i);
      var ran := if e == k then [Queue(q, e)[0]] else [];
      PrefixFront(ran, OfKind(rest[..i], k), Queue(AfterRun(q, e), k) + AllPushed(rest[..i - 1], k));
    }
  }

  lemma DrainPrefix(q: Queues, first: bool, i: nat)
    requires 0 < i <= |Drain(q, first)|
    ensures Queue(q, Next(q, first)) != []
    ensures Drain(q, first)[..i] ==
      [Push(Next(q, first), Queue(q, Next(q, first))[0])] + Drain(AfterRun(q, Next(q, first)), false)[..i - 1]
  {
  }

  /** After its first callback a drain starts a nextTick only when every microtask queued has run. */
  lemma {:induction false} MicrotasksFirst(q: Queues, first: bool, i: nat)
    requires i < |Drain(q, first)| && Drain(q, first)[i].kind == Tick && (i > 0 || !first)
    ensures var p := Drain(q, first)[..i]; OfKind(p, Micro) == q.micros + AllPushed(p, Micro)
    decreases Load(q)
  {
    if i > 0 {
      var e := Next(q, first);
      RunLightens(q, e);
      var rest := Drain(AfterRun(q, e), false);
      MicrotasksFirst(AfterRun(q, e), false, i - 1);
      TraceFront(q, e, rest[..i - 1], Micro);
      DrainPrefix(q, first, i);
    }
  }

  lemma CancelFront<T>(a: seq<T>, b: seq<T>, c: seq<T>)
    ensures a + b == a + c ==> b == c
  {
    assert (a + b)[|a|..] == b && (a + c)[|a|..] == c;
  }

  /** What the first of two or more callbacks run leaves decides what follows it. */
  lemma {:induction false} AfterMicro(q: Queues, first: bool)
    requires 1 < |Drain(q, first)| && Drain(q, first)[0].kind == Micro
    ensures var p := Drain(q, first)[..1];
      Drain(q, first)[1].kind == Tick <==> OfKind(p, Micro) == q.micros + AllPushed(p, Micro)
  {
    RunLightens(q, Micro);
    var r := AfterRun(q, Micro);
    TraceFront(q, Micro, [], Micro);
    DrainPrefix(q, first, 1);
    assert Drain(q, first)[1] == Drain(r, false)[0];
    CancelFront([q.micros[0]], r.micros, []);
    assert [Push(Micro, q.micros[0])] + [] == [Push(Micro, q.micros[0])];
    assert r.micros + [] == r.micros;
  }

  /** When a nextTick is run straight after a microtask: exactly when every microtask queued by then has run.
      So one that a microtask registers runs before the rest of the microtasks exactly when there are none. */
  lemma {:induction false} ThirdRuleExactly(q: Queues, first: bool, i: nat)
    requires i + 1 < |Drain(q, first)| && Drain(q, first)[i].kind == Micro
    ensures var p := Drain(q, first)[..i + 1];
      Drain(q, first)[i + 1].kind == Tick <==> OfKind(p, Micro) == q.micros + AllPushed(p, Micro)
    decreases Load(q)
  {
    if i == 0 {
      AfterMicro(q, first);
    } else {
      var e := Next(q, first);
      RunLightens(q, e);
      var rest := Drain(AfterRun(q, e), false);
      ThirdRuleExactly(AfterRun(q, e), false, i - 1);
      TraceFront(q, e, rest[..i], Micro);
      DrainPrefix(q, first, i + 1);
      var ran := if e == Micro then [Queue(q, e)[0]] else [];
      CancelFront(ran, OfKind(rest[..i], Micro), AfterRun(q, e).micros + AllPushed(rest[..i], Micro));
    }
  }

  // ----- the rule is the only order that keeps the promises -----

  /** What has run of a kind by event i had been queued before it. */
  ghost predicate InTurn(q: Queues, trace: seq<Push>, i: nat, k: Kind)
    requires i < |trace|
  {
    OfKind(trace[..i + 1], k) <= Queue(q, k) + AllPushed(trace[..i], k)
  }

  /** Every microtask queued before event i has run by then. */
  ghost predicate NoMicroWaits(q: Queues, trace: seq<Push>, i: nat)
    requires i <= |trace|
  {
    OfKind(trace[..i], Micro) == q.micros + AllPushed(trace[..i], Micro)
  }

  /** Both queues are first in, first out, and nothing is left in them; a nextTick is started only with no
      microtask waiting, except that a drain which is at its beginning starts with one if there is one. */
  ghost predicate IsDrain(q: Queues, trace: seq<Push>, first: bool) {
    && (forall i, k :: 0 <= i < |trace| ==> InTurn(q, trace, i, k))
    && (forall k :: OfKind(trace, k) == Queue(q, k) + AllPushed(trace, k))
    && (first && q.ticks != [] ==> trace != [] && trace[0].kind == Tick)
    && (forall i: nat :: i < |trace| && trace[i].kind == Tick && (i > 0 || !first) ==> NoMicroWaits(q, trace, i))
  }

  lemma {:induction false} DrainIsOne(q: Queues, first: bool)
    ensures IsDrain(q, Drain(q, first), first)
  {
    var d := Drain(q, first);
    forall i, k | 0 <= i < |d| ensures InTurn(q, d, i, k) { NothingRunsEarly(q, first, i, k); }
    forall k ensures OfKind(d, k) == Queue(q, k) + AllPushed(d, k) { FirstInFirstOut(q, first, k); }
    forall i: nat | i < |d| && d[i].kind == Tick && (i > 0 || !first) ensures NoMicroWaits(q, d, i) {
      MicrotasksFirst(q, first, i);
    }
  }

  lemma {:induction false} FirstOfDrain(q: Queues, trace: seq<Push>, first: bool)
    requires IsDrain(q, trace, first)
    ensures trace == [] <==> Empty(q)
    ensures trace != [] ==>
      var k := trace[0].kind; k == Next(q, first) && Queue(q, k) != [] && Queue(q, k)[0] == trace[0].callback
  {
    if trace == [] {
      assert OfKind(trace, Tick) == q.ticks + [] && OfKind(trace, Micro) == q.micros + [];
    } else {
      var k := trace[0].kind;
      assert InTurn(q, trace, 0, k) && trace[..1] == [trace[0]] && trace[..0] == [];
      OfKindFront([trace[0]]);
      assert OfKind([trace[0]], k) == [trace[0].callback];
      assert [trace[0].callback] <= Queue(q, k);
      assert Queue(q, k)[0] == [trace[0].callback][0];
      if k == Tick && !first { assert NoMicroWaits(q, trace, 0); }
    }
  }

  lemma CancelPrefix<T>(a: seq<T>, b: seq<T>, c: seq<T>)
    requires a + b <= a + c
    ensures b <= c
  {
    assert forall i :: 0 <= i < |b| ==> b[i] == (a + b)[|a| + i] && c[i] == (a + c)[|a| + i];
  }

  lemma {:induction false} RestInTurn(q: Queues, trace: seq<Push>, i: nat, k: Kind)
    requires i + 1 < |trace| && InTurn(q, trace, i + 1, k)
    requires var e := trace[0].kind; Queue(q, e) != [] && Queue(q, e)[0] == trace[0].callback
    ensures InTurn(AfterRun(q, trace[0].kind), trace[1..], i, k)
  {
    var e, rest := trace[0].kind, trace[1..];
    assert trace[..i + 2] == [trace[0]] + rest[..i + 1] && trace[..i + 1] == [trace[0]] + rest[..i];
    TraceFront(q, e, rest[..i + 1], k);
    TraceFront(q, e, rest[..i], k);
    CancelPrefix(if e == k then [Queue(q, e)[0]] else [], OfKind(rest[..i + 1], k),
      Queue(AfterRun(q, e), k) + AllPushed(rest[..i], k));
  }

  lemma {:induction false} RestIsDrain(q: Queues, trace: seq<Push>, first: bool)
    requires IsDrain(q, trace, first) && trace != []
    requires var e := trace[0].kind; Queue(q, e) != [] && Queue(q, e)[0] == trace[0].callback
    ensures IsDrain(AfterRun(q, trace[0].kind), trace[1..], false)
  {
    var e, rest := trace[0].kind, trace[1..];
    var q', c := AfterRun(q, e), Queue(q, e)[0];
    forall i, k | 0 <= i < |rest| ensures InTurn(q', rest, i, k) {
      assert InTurn(q, trace, i + 1, k);
      RestInTurn(q, trace, i, k);
    }
    forall k ensures OfKind(rest, k) == Queue(q', k) + AllPushed(rest, k) {
      assert trace == [trace[0]] + rest;
      TraceFront(q, e, rest, k);
      CancelFront(if e == k then [c] else [], OfKind(rest, k), Queue(q', k) + AllPushed(rest, k));
    }
    forall i: nat | i < |rest| && rest[i].kind == Tick ensures NoMicroWaits(q', rest, i) {
      assert trace[i + 1] == rest[i] && NoMicroWaits(q, trace, i + 1);
      assert trace[..i + 1] == [trace[0]] + rest[..i];
      TraceFront(q, e, rest[..i], Micro);
      CancelFront(if e == Micro then [c] else [], OfKind(rest[..i], Micro), q'.micros + AllPushed(rest[..i], Micro));
    }
  }

  /** The rule is the one order that does so. */
  lemma {:induction false} OnlyDrain(q: Queues, trace: seq<Push>, first: bool)
    ensures IsDrain(q, trace, first) <==> trace == Drain(q, first)
    decreases Load(q)
  {
    DrainIsOne(q, first);
    if IsDrain(q, trace, first) {
      FirstOfDrain(q, trace, first);
      if trace != [] {
        var e := trace[0].kind;
        RunLightens(q, e);
        RestIsDrain(q, trace, first);
        OnlyDrain(AfterRun(q, e), trace[1..], false);
      }
    }
  }

  ghost function Nodes(p: Push): multiset<Push>
    decreases p, 0
  {
    multiset{p} + AllNodes(p.callback.pushes)
  }

  ghost function AllNodes(ps: seq<Push>): multiset<Push>
    decreases ps, 1
  {
    if ps == [] then multiset{} else Nodes(ps[0]) + AllNodes(ps[1..])
  }

  ghost function NodesIn(cs: seq<Callback>, k: Kind): multiset<Push> {
    if cs == [] then multiset{} else Nodes(Push(k, cs[0])) + NodesIn(cs[1..], k)
  }

  lemma {:induction false} NodesJoin(a: seq<Callback>, b: seq<Callback>, k: Kind)
    ensures NodesIn(a + b, k) == NodesIn(a, k) + NodesIn(b, k)
  {
    if a == [] {
      assert a + b == b;
    } else {
      assert (a + b)[1..] == a[1..] + b;
      NodesJoin(a[1..], b, k);
    }
  }

  lemma {:induction false} NodesFront(c: Callback, cs: seq<Callback>, k: Kind)
    ensures NodesIn([c] + cs, k) == Nodes(Push(k, c)) + NodesIn(cs, k)
  {
    assert ([c] + cs)[1..] == cs;
  }

  lemma {:induction false} NodesOfKinds(ps: seq<Push>)
    ensures NodesIn(OfKind(ps, Tick), Tick) + NodesIn(OfKind(ps, Micro), Micro) == AllNodes(ps)
  {
    if ps != [] {
      var c, rest := ps[0].callback, ps[1..];
      NodesOfKinds(rest);
      NodesFront(c, OfKind(rest, ps[0].kind), ps[0].kind);
      OfKindFront(ps);
      assert Push(ps[0].kind, c) == ps[0];
      Shuffle2(Nodes(ps[0]), NodesIn(OfKind(rest, Tick), Tick), NodesIn(OfKind(rest, Micro), Micro));
    }
  }

  lemma Shuffle2<T>(a: multiset<T>, b: multiset<T>, c: multiset<T>)
    ensures a + b + c == a + (b + c) && b + (a + c) == a + (b + c)
  {
  }

  lemma {:induction false} OfKindFront(ps: seq<Push>)
    requires ps != []
    ensures OfKind(ps, ps[0].kind) == [ps[0].callback] + OfKind(ps[1..], ps[0].kind)
    ensures forall k :: k != ps[0].kind ==> OfKind(ps, k) == OfKind(ps[1..], k)
  {
    forall k | k != ps[0].kind ensures OfKind(ps, k) == OfKind(ps[1..], k) {
      assert [] + OfKind(ps[1..], k) == OfKind(ps[1..], k);
    }
  }

  ghost function Pending(q: Queues): multiset<Push> {
    NodesIn(q.ticks, Tick) + NodesIn(q.micros, Micro)
  }

  lemma TailPending(q: Queues, k: Kind)
    requires Queue(q, k) != []
    ensures Pending(q) == Nodes(Push(k, Queue(q, k)[0])) + Pending(Tail(q, k))
  {
  }

  lemma {:induction false} PushedPending(q: Queues, c: Callback)
    ensures Pending(Pushed(q, c)) == AllNodes(c.pushes) + Pending(q)
  {
    NodesJoin(q.ticks, OfKind(c.pushes, Tick), Tick);
    NodesJoin(q.micros, OfKind(c.pushes, Micro), Micro);
    NodesOfKinds(c.pushes);
    Shuffle(NodesIn(q.ticks, Tick), NodesIn(OfKind(c.pushes, Tick), Tick), NodesIn(q.micros, Micro),
      NodesIn(OfKind(c.pushes, Micro), Micro));
  }

  lemma Shuffle<T>(a: multiset<T>, b: multiset<T>, c: multiset<T>, d: multiset<T>)
    ensures a + b + (c + d) == b + d + (a + c)
  {
  }

  lemma {:induction false} RunTakesOne(q: Queues, k: Kind)
    requires Queue(q, k) != []
    ensures Pending(q) == multiset{Push(k, Queue(q, k)[0])} + Pending(AfterRun(q, k))
  {
    TailPending(q, k);
    PushedPending(Tail(q, k), Queue(q, k)[0]);
  }

  /** A drain runs each callback of the queues' trees, and no other, as often as it occurs there. */
  lemma {:induction false} EachOnce(q: Queues, first: bool)
    ensures multiset(Drain(q, first)) == Pending(q)
    decreases Load(q)
  {
    if !Empty(q) {
      var k := Next(q, first);
      RunLightens(q, k);
      RunTakesOne(q, k);
      EachOnce(AfterRun(q, k), false);
    }
  }

  /** The comment above the code says that a nextTick registered while microtasks are drained runs before
      the rest of them.  With one left it does not. */
  lemma {:induction false} NewTickWaits(t: Callback, a: Callback, b: Callback)
    requires t.pushes == [] && a.pushes == [Push(Tick, t)] && b.pushes == []
    ensures Drain(Queues([], [a, b]), true) == [Push(Micro, a), Push(Micro, b), Push(Tick, t)]
  {
    OfKindFront([Push(Tick, t)]);
    assert AfterRun(Queues([], [a, b]), Micro) == Queues([t], [b]);
    assert AfterRun(Queues([t], [b]), Micro) == Queues([t], []);
    assert AfterRun(Queues([t], []), Tick) == Queues([], []);
    assert Drain(Queues([t], []), false) == [Push(Tick, t)];
    assert Drain(Queues([t], [b]), false) == [Push(Micro, b), Push(Tick, t)];
  }

  // ----- the code -----

  lemma {:induction false} DrainStep(q: Queues, first: bool)
    requires !Empty(q)
    ensures Queue(q, Next(q, first)) != [] && Load(AfterRun(q, Next(q, first))) < Load(q)
    ensures Drain(q, first) ==
      [Push(Next(q, first), Queue(q, Next(q, first))[0])] + Drain(AfterRun(q, Next(q, first)), false)
  {
    RunLightens(q, Next(q, first));
  }

  /** With one queue empty it does not matter whether a callback has run. */
  lemma FirstIrrelevant(q: Queues)
    requires q.ticks == [] || q.micros == []
    ensures Drain(q, true) == Drain(q, false)
  {
  }

  lemma Regroup2<T>(a: seq<T>, x: T, b: seq<T>)
    ensures a + [x] + b == a + ([x] + b)
  {
  }

  class Loop {
    var nextTickQueue: seq<Callback>
    var microtaskQueue: seq<Callback>
    var nextTicksFired: nat
    var microtasksFired: nat
    ghost var trace: seq<Push>

    constructor ()
      ensures Empty(Waiting()) && trace == []
    {
      nextTickQueue, microtaskQueue, nextTicksFired, microtasksFired, trace := [], [], 0, 0, [];
    }

    ghost function Waiting(): Queues
      reads this
    {
      Queues(nextTickQueue, microtaskQueue)
    }

    /** A callback runs: what it pushes is added to the two queues. */
    method Call(ghost k: Kind, c: Callback)
      modifies this`nextTickQueue, this`microtaskQueue, this`trace
      ensures Waiting() == Pushed(old(Waiting()), c) && trace == old(trace) + [Push(k, c)]
    {
      trace := trace + [Push(k, c)];
      var todo := c.pushes;
      while todo != []
        invariant nextTickQueue + OfKind(todo, Tick) == old(nextTickQueue) + OfKind(c.pushes, Tick)
        invariant microtaskQueue + OfKind(todo, Micro) == old(microtaskQueue) + OfKind(c.pushes, Micro)
        invariant trace == old(trace) + [Push(k, c)]
      {
        OfKindFront(todo);
        var p := todo[0];
        if p.kind == Tick {
          nextTickQueue := nextTickQueue + [p.callback];
        } else {
          microtaskQueue := microtaskQueue + [p.callback];
        }
        todo := todo[1..];
      }
    }

    /** Runs the head of the microtask queue. */
    method RunMicrotask(ghost first: bool)
      requires microtaskQueue != [] && Next(Waiting(), first) == Micro
      modifies this
      ensures trace + Drain(Waiting(), false) == old(trace + Drain(Waiting(), first))
      ensures Load(Waiting()) < old(Load(Waiting()))
      ensures microtasksFired == old(microtasksFired) + 1 && nextTicksFired == old(nextTicksFired)
    {
      DrainStep(Waiting(), first);
      ghost var q := Waiting();
      var callback := microtaskQueue[0];
      microtaskQueue := microtaskQueue[1..];
      Call(Micro, callback);
      microtasksFired := microtasksFired + 1;
      assert Waiting() == AfterRun(q, Micro);
      Regroup2(old(trace), Push(Micro, callback), Drain(Waiting(), false));
    }

    method DrainMicrotasks() returns (any: bool)
      modifies this
      ensures microtaskQueue == [] && Load(Waiting()) <= old(Load(Waiting()))
      ensures trace + Drain(Waiting(), false) == old(trace + Drain(Waiting(), false))
      ensures any <==> old(microtaskQueue) != []
      ensures any ==> Load(Waiting()) < old(Load(Waiting()))
      ensures !any ==> Waiting() == old(Waiting()) && trace == old(trace)
    {
      var fired := 0;
      while microtaskQueue != []
        invariant fired == 0 ==> Waiting() == old(Waiting()) && trace == old(trace)
        invariant fired > 0 ==> Load(Waiting()) < old(Load(Waiting())) && old(microtaskQueue) != []
        invariant trace + Drain(Waiting(), false) == old(trace + Drain(Waiting(), false))
        decreases Load(Waiting())
      {
        RunMicrotask(false);
        fired := fired + 1;
      }
      any := fired > 0;
    }

    /** Runs the head of the nextTick queue. */
    method RunTick(ghost first: bool)
      requires nextTickQueue != [] && Next(Waiting(), first) == Tick
      modifies this
      ensures trace + Drain(Waiting(), false) == old(trace + Drain(Waiting(), first))
      ensures Load(Waiting()) < old(Load(Waiting()))
      ensures nextTicksFired == old(nextTicksFired) + 1 && microtasksFired == old(microtasksFired)
    {
      DrainStep(Waiting(), first);
      ghost var q := Waiting();
      var callback := nextTickQueue[0];
      nextTickQueue := nextTickQueue[1..];
      Call(Tick, callback);
      nextTicksFired := nextTicksFired + 1;
      assert Waiting() == AfterRun(q, Tick);
      Regroup2(old(trace), Push(Tick, callback), Drain(Waiting(), false));
    }

    /** Drains the nextTick queue, and the microtask queue after each nextTick. */
    method DrainTicks(ghost first: bool) returns (any: bool)
      requires first || microtaskQueue == []
      modifies this
      ensures nextTickQueue == [] && Load(Waiting()) <= old(Load(Waiting()))
      ensures any <==> old(nextTickQueue) != []
      ensures any ==> Load(Waiting()) < old(Load(Waiting())) && microtaskQueue == []
      ensures !any ==> Waiting() == old(Waiting()) && trace == old(trace)
      ensures trace + Drain(Waiting(), first && !any) == old(trace + Drain(Waiting(), first))
    {
      any := false;
      while nextTickQueue != []
        invariant any ==> Load(Waiting()) < old(Load(Waiting())) && microtaskQueue == [] && old(nextTickQueue) != []
        invariant !any ==> Waiting() == old(Waiting()) && trace == old(trace)
        invariant trace + Drain(Waiting(), first && !any) == old(trace + Drain(Waiting(), first))
        decreases Load(Waiting())
      {
        RunTick(first && !any);
        any := true;
        var _ := DrainMicrotasks();
      }
    }

    /** Both queues are emptied, and what is run is what the rule says. */
    method DrainNextTickAndMicrotask()
      modifies this
      ensures Empty(Waiting())
      ensures trace == old(trace) + Drain(old(Waiting()), true)
      ensures IsDrain(old(Waiting()), trace[|old(trace)|..], true)
    {
      var hasWork := true;
      ghost var first := true;
      while hasWork
        invariant first || microtaskQueue == []
        invariant !hasWork ==> Empty(Waiting())
        invariant trace + Drain(Waiting(), first) == old(trace) + Drain(old(Waiting()), true)
        decreases Load(Waiting()), hasWork
      {
        hasWork := DrainTicks(first);
        first := first && !hasWork;
        FirstIrrelevant(Waiting());
        var any := DrainMicrotasks();
        first := false;
        if any {
          hasWork := true;
        }
      }
      assert Drain(Waiting(), first) == [];
      assert trace + [] == trace;
      DrainIsOne(old(Waiting()), true);
      assert trace[|old(trace)|..] == Drain(old(Waiting()), true);
    }
  }
}
