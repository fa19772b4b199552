/**
 The idempotency-key store of engineering/backend/data-consistency/transaction-boundary/impl.ts, for any
 number of overlapping calls of execute.

 JavaScript runs code between two awaits without interruption, so a call is a few atomic steps: Begin, up to
 the call of fn or to the wait; Finish, when fn has settled; and Timeout, when the timer of a waiting call
 goes off.  A call is named by its number, and so is a run of fn; what fn does is an argument.
*/
module Idempotency {
  import opened Sequences
  import opened Sets
  import opened Wrappers

  type Outcome = Result<string, string>

  datatype Status = Processing | Completed(response: string) | Failed(error: string)

  datatype Record = Record(status: Status, expiresAt: int)

  datatype Answer = Answered(outcome: Outcome) | Conflict | TimedOut

  datatype RunState = InFlight | Done(outcome: Outcome)

  /** A run of fn for the call owner. */
  datatype Run = Run(key: string, owner: nat, expiresAt: int, state: RunState)

  /** A call has started a run, waits for one, or has its answer: reason is the run it came from. */
  datatype CallState = Owner(run: nat) | Waiting(run: nat) | Settled(answer: Answer, reason: nat)

  datatype Call = Call(key: string, state: CallState)

  /** writer tells which run a record comes from, forgotten which runs' records were cleaned up. */
  datatype State = State(
    store: map<string, Record>,
    waiters: map<string, seq<nat>>,
    runs: seq<Run>,
    calls: seq<Call>,
    writer: map<string, nat>,
    forgotten: set<nat>)

  datatype Action =
    | Begin(key: string, reject: bool, expiresAt: int)
    | Finish(run: nat, outcome: Outcome)
    | Timeout(call: nat)
    | Cleanup(now: int)

  function New(): State {
    State(map[], map[], [], [], map[], {})
  }

  function StatusOf(outcome: Outcome): Status {
    match outcome
    case Ok(v) => Completed(v)
    case Err(e) => Failed(e)
  }

  // ----- the steps -----

  function StartRun(s: State, key: string, expiresAt: int): State {
    s.(store := s.store[key := Record(Processing, expiresAt)],
       writer := s.writer[key := |s.runs|],
       runs := s.runs + [Run(key, |s.calls|, expiresAt, InFlight)],
       calls := s.calls + [Call(key, Owner(|s.runs|))])
  }

  function Wait(s: State, key: string, run: nat): State {
    s.(waiters := s.waiters[key := (if key in s.waiters then s.waiters[key] else []) + [|s.calls|]],
       calls := s.calls + [Call(key, Waiting(run))])
  }

  function AfterBegin(s: State, key: string, reject: bool, expiresAt: int): State {
    if key in s.store && key in s.writer && !s.store[key].status.Failed? then
      match s.store[key].status
      case Completed(v) => s.(calls := s.calls + [Call(key, Settled(Answered(Ok(v)), s.writer[key]))])
      case _ =>
        if reject then s.(calls := s.calls + [Call(key, Settled(Conflict, s.writer[key]))])
          else Wait(s, key, s.writer[key])
    else
      StartRun(s, key, expiresAt)
  }

  /** Every call of cs gets its answer. */
  function Told(calls: seq<Call>, cs: seq<nat>, answer: Answer, reason: nat): seq<Call> {
    seq(|calls|, c requires 0 <= c < |calls| => if c in cs then calls[c].(state := Settled(answer, reason))
      else calls[c])
  }

  function AfterFinish(s: State, r: nat, outcome: Outcome): State {
    if r < |s.runs| && s.runs[r].state == InFlight then
      var run := s.runs[r];
      var list := if run.key in s.waiters then s.waiters[run.key] else [];
      s.(runs := s.runs[r := run.(state := Done(outcome))],
         store := s.store[run.key := Record(StatusOf(outcome), run.expiresAt)],
         writer := s.writer[run.key := r],
         waiters := s.waiters - {run.key},
         calls := Told(s.calls, list + [run.owner], Answered(outcome), r))
    else s
  }

  function Without(list: seq<nat>, c: nat): seq<nat> {
    if list == [] then [] else if list[0] == c then list[1..] else [list[0]] + Without(list[1..], c)
  }

  function RemoveWaiter(waiters: map<string, seq<nat>>, key: string, c: nat): map<string, seq<nat>> {
    if key in waiters && c in waiters[key] then
      var list := Without(waiters[key], c);
      if list == [] then waiters - {key} else waiters[key := list]
    else waiters
  }

  function AfterTimeout(s: State, c: nat): State {
    if c < |s.calls| && s.calls[c].state.Waiting? then
      s.(waiters := RemoveWaiter(s.waiters, s.calls[c].key, c),
         calls := s.calls[c := s.calls[c].(state := Settled(TimedOut, s.calls[c].state.run))])
    else s
  }

  ghost function Expired(s: State, now: int): set<string> {
    set k | k in s.store && s.store[k].expiresAt < now
  }

  ghost function AfterCleanup(s: State, now: int): State {
    var gone := Expired(s, now);
    s.(store := s.store - gone, writer := s.writer - gone, forgotten := s.forgotten + RunsOf(s.writer, gone))
  }

  ghost function RunsOf(writer: map<string, nat>, keys: set<string>): set<nat> {
    set k | k in keys && k in writer :: writer[k]
  }

  ghost function Step(s: State, a: Action): State {
    match a
    case Begin(key, reject, expiresAt) => AfterBegin(s, key, reject, expiresAt)
    case Finish(r, outcome) => AfterFinish(s, r, outcome)
    case Timeout(c) => AfterTimeout(s, c)
    case Cleanup(now) => AfterCleanup(s, now)
  }

  // ----- what every run keeps -----

  ghost predicate Agrees(status: Status, state: RunState) {
    match state
    case InFlight => status == Processing
    case Done(outcome) => status == StatusOf(outcome)
  }

  ghost predicate KeyOk(s: State, k: string)
    requires k in s.store
  {
    && k in s.writer && s.writer[k] < |s.runs|
    && var run := s.runs[s.writer[k]];
    run.key == k && Agrees(s.store[k].status, run.state) && s.store[k].expiresAt == run.expiresAt
  }

  /** A run in flight is the one its record is about; the same holds for a successful one, until its record is
      cleaned up. */
  ghost predicate RunOk(s: State, r: nat)
    requires r < |s.runs|
  {
    var run := s.runs[r];
    && run.owner < |s.calls| && s.calls[run.owner].key == run.key
    && (run.state == InFlight ==> s.calls[run.owner].state == Owner(r))
    && (run.state == InFlight || (run.state.outcome.Ok? && r !in s.forgotten) ==>
          run.key in s.store && run.key in s.writer && s.writer[run.key] == r)
  }

  ghost predicate CallOk(s: State, c: nat)
    requires c < |s.calls|
  {
    var key := s.calls[c].key;
    match s.calls[c].state
    case Owner(r) => r < |s.runs| && s.runs[r].state == InFlight && s.runs[r].owner == c && s.runs[r].key == key
    case Waiting(r) =>
      r < |s.runs| && s.runs[r].state == InFlight && s.runs[r].key == key && key in s.waiters && c in s.waiters[key]
    case Settled(answer, r) =>
      r < |s.runs| && s.runs[r].key == key && (answer.Answered? ==> s.runs[r].state == Done(answer.outcome))
  }

  ghost predicate WaiterOk(s: State, k: string, i: nat)
    requires k in s.waiters && i < |s.waiters[k]|
  {
    var c := s.waiters[k][i];
    c < |s.calls| && s.calls[c].key == k && s.calls[c].state.Waiting?
  }

  ghost predicate ListOk(s: State, k: string)
    requires k in s.waiters
  {
    && s.waiters[k] != [] && Distinct(s.waiters[k])
    && forall i {:trigger WaiterOk(s, k, i)} :: 0 <= i < |s.waiters[k]| ==> WaiterOk(s, k, i)
  }

  ghost predicate Inv(s: State) {
    && s.store.Keys == s.writer.Keys
    && (forall k {:trigger KeyOk(s, k)} :: k in s.store ==> KeyOk(s, k))
    && (forall r {:trigger RunOk(s, r)} :: 0 <= r < |s.runs| ==> RunOk(s, r))
    && (forall c {:trigger CallOk(s, c)} :: 0 <= c < |s.calls| ==> CallOk(s, c))
    && (forall k {:trigger ListOk(s, k)} :: k in s.waiters ==> ListOk(s, k))
  }

  lemma {:induction false} KeysBegun(s: State, key: string, reject: bool, expiresAt: int)
    requires Inv(s)
    ensures var s' := AfterBegin(s, key, reject, expiresAt);
      s'.store.Keys == s'.writer.Keys && forall k {:trigger KeyOk(s', k)} :: k in s'.store ==> KeyOk(s', k)
  {
    var s' := AfterBegin(s, key, reject, expiresAt);
    forall k | k in s'.store ensures KeyOk(s', k) {
      if k in s.store { assert KeyOk(s, k); }
    }
  }

  lemma {:induction false} RunsBegun(s: State, key: string, reject: bool, expiresAt: int, r: nat)
    requires Inv(s) && r < |AfterBegin(s, key, reject, expiresAt).runs|
    ensures RunOk(AfterBegin(s, key, reject, expiresAt), r)
  {
    if r < |s.runs| {
      assert RunOk(s, r);
    }
    if key in s.store {
      assert KeyOk(s, key);
    }
  }

  lemma {:induction false} CallsBegun(s: State, key: string, reject: bool, expiresAt: int, c: nat)
    requires Inv(s) && c < |AfterBegin(s, key, reject, expiresAt).calls|
    ensures CallOk(AfterBegin(s, key, reject, expiresAt), c)
  {
    if c < |s.calls| {
      assert CallOk(s, c);
    }
    if key in s.store {
      assert KeyOk(s, key);
    }
  }

  lemma {:induction false} BeginInv(s: State, key: string, reject: bool, expiresAt: int)
    requires Inv(s)
    ensures Inv(AfterBegin(s, key, reject, expiresAt))
  {
    var s' := AfterBegin(s, key, reject, expiresAt);
    KeysBegun(s, key, reject, expiresAt);
    forall r | 0 <= r < |s'.runs| ensures RunOk(s', r) {
      RunsBegun(s, key, reject, expiresAt, r);
    }
    forall c | 0 <= c < |s'.calls| ensures CallOk(s', c) {
      CallsBegun(s, key, reject, expiresAt, c);
    }
    forall k | k in s'.waiters ensures ListOk(s', k) {
      ListBegun(s, key, reject, expiresAt, k);
    }
  }

  lemma {:induction false} ListBegun(s: State, key: string, reject: bool, expiresAt: int, k: string)
    requires Inv(s) && k in AfterBegin(s, key, reject, expiresAt).waiters
    ensures ListOk(AfterBegin(s, key, reject, expiresAt), k)
  {
    var s' := AfterBegin(s, key, reject, expiresAt);
    if k in s.waiters { assert ListOk(s, k); }
    forall i | 0 <= i < |s'.waiters[k]| ensures WaiterOk(s', k, i) {
      if k in s.waiters && i < |s.waiters[k]| { assert WaiterOk(s, k, i); }
    }
    if k in s.waiters && s'.waiters[k] != s.waiters[k] {
      forall i | 0 <= i < |s.waiters[k]| ensures s.waiters[k][i] < |s.calls| {
        assert WaiterOk(s, k, i);
      }
    }
  }

  // ----- Finish -----

  ghost predicate Finishes(s: State, r: nat) {
    r < |s.runs| && s.runs[r].state == InFlight
  }

  /** At most one run in flight per key. */
  lemma {:induction false} OneInFlight(s: State, r: nat, r': nat)
    requires Inv(s) && Finishes(s, r) && Finishes(s, r') && s.runs[r].key == s.runs[r'].key
    ensures r == r'
  {
    assert RunOk(s, r) && RunOk(s, r');
  }

  lemma {:induction false} KeysFinished(s: State, r: nat, outcome: Outcome)
    requires Inv(s) && Finishes(s, r)
    ensures var s' := AfterFinish(s, r, outcome);
      s'.store.Keys == s'.writer.Keys && forall k {:trigger KeyOk(s', k)} :: k in s'.store ==> KeyOk(s', k)
  {
    var s' := AfterFinish(s, r, outcome);
    assert RunOk(s, r);
    forall k | k in s'.store ensures KeyOk(s', k) {
      assert k in s.store && KeyOk(s, k);
    }
  }

  lemma {:induction false} RunsFinished(s: State, r: nat, outcome: Outcome, r': nat)
    requires Inv(s) && Finishes(s, r) && r' < |s.runs|
    ensures RunOk(AfterFinish(s, r, outcome), r')
  {
    assert RunOk(s, r) && RunOk(s, r');
    if r' != r && s.runs[r'].state == InFlight {
      assert CallOk(s, s.runs[r'].owner) && CallOk(s, s.runs[r].owner);
      if s.runs[r].key in s.waiters {
        OwnerNotWaiting(s, s.runs[r'].owner, s.runs[r].key);
      }
    }
  }

  lemma {:induction false} OwnerNotWaiting(s: State, c: nat, k: string)
    requires Inv(s) && c < |s.calls| && s.calls[c].state.Owner? && k in s.waiters
    ensures c !in s.waiters[k]
  {
    assert ListOk(s, k);
    forall i | 0 <= i < |s.waiters[k]| ensures s.waiters[k][i] != c {
      assert WaiterOk(s, k, i);
    }
  }

  lemma {:induction false} CallsFinished(s: State, r: nat, outcome: Outcome, c: nat)
    requires Inv(s) && Finishes(s, r) && c < |s.calls|
    ensures CallOk(AfterFinish(s, r, outcome), c)
  {
    assert RunOk(s, r) && CallOk(s, c);
    var k := s.runs[r].key;
    if k in s.waiters && c in s.waiters[k] {
      assert ListOk(s, k);
      var i :| 0 <= i < |s.waiters[k]| && s.waiters[k][i] == c;
      assert WaiterOk(s, k, i);
    }
  }

  lemma {:induction false} ListFinished(s: State, r: nat, outcome: Outcome, k: string)
    requires Inv(s) && Finishes(s, r) && k in s.waiters && k != s.runs[r].key
    ensures ListOk(AfterFinish(s, r, outcome), k)
  {
    var s' := AfterFinish(s, r, outcome);
    assert ListOk(s, k) && RunOk(s, r);
    forall i | 0 <= i < |s'.waiters[k]| ensures WaiterOk(s', k, i) {
      assert WaiterOk(s, k, i);
      NotTold(s, r, s.waiters[k][i]);
    }
  }

  lemma {:induction false} NotTold(s: State, r: nat, c: nat)
    requires Inv(s) && Finishes(s, r) && c < |s.calls| && s.calls[c].state.Waiting? && s.calls[c].key != s.runs[r].key
    ensures c != s.runs[r].owner && (s.runs[r].key in s.waiters ==> c !in s.waiters[s.runs[r].key])
  {
    assert RunOk(s, r);
    var k := s.runs[r].key;
    if k in s.waiters {
      assert ListOk(s, k);
      forall i | 0 <= i < |s.waiters[k]| ensures s.waiters[k][i] != c {
        assert WaiterOk(s, k, i);
      }
    }
  }

  lemma {:induction false} FinishInv(s: State, r: nat, outcome: Outcome)
    requires Inv(s)
    ensures Inv(AfterFinish(s, r, outcome))
  {
    var s' := AfterFinish(s, r, outcome);
    if Finishes(s, r) {
      KeysFinished(s, r, outcome);
      forall r' | 0 <= r' < |s'.runs| ensures RunOk(s', r') {
        RunsFinished(s, r, outcome, r');
      }
      forall c | 0 <= c < |s'.calls| ensures CallOk(s', c) {
        CallsFinished(s, r, outcome, c);
      }
      forall k | k in s'.waiters ensures ListOk(s', k) {
        ListFinished(s, r, outcome, k);
      }
    }
  }

  // ----- Timeout -----

  lemma {:induction false} WithoutKeeps(list: seq<nat>, c: nat)
    requires Distinct(list)
    ensures Distinct(Without(list, c)) && forall x :: x in Without(list, c) <==> x in list && x != c
  {
    if list != [] {
      assert list == [list[0]] + list[1..];
      assert forall x :: x in list[1..] ==> x != list[0];
      if list[0] != c {
        var rest := Without(list[1..], c);
        WithoutKeeps(list[1..], c);
        forall i | 0 <= i < |rest| ensures rest[i] != list[0] {
          assert rest[i] in rest;
        }
      }
    }
  }

  lemma {:induction false} ListTimedOut(s: State, c: nat, k: string)
    requires Inv(s) && c < |s.calls| && s.calls[c].state.Waiting? && k in AfterTimeout(s, c).waiters
    ensures ListOk(AfterTimeout(s, c), k)
  {
    var s', key := AfterTimeout(s, c), s.calls[c].key;
    assert CallOk(s, c) && ListOk(s, k);
    if k == key {
      WithoutKeeps(s.waiters[k], c);
    }
    forall i | 0 <= i < |s'.waiters[k]| ensures WaiterOk(s', k, i) {
      var x := s'.waiters[k][i];
      assert x in s'.waiters[k];
      var j :| 0 <= j < |s.waiters[k]| && s.waiters[k][j] == x;
      assert WaiterOk(s, k, j);
    }
  }

  lemma {:induction false} TimeoutInv(s: State, c: nat)
    requires Inv(s)
    ensures Inv(AfterTimeout(s, c))
  {
    var s' := AfterTimeout(s, c);
    if c < |s.calls| && s.calls[c].state.Waiting? {
      assert CallOk(s, c);
      forall k | k in s'.store ensures KeyOk(s', k) {
        assert KeyOk(s, k);
      }
      forall r | 0 <= r < |s'.runs| ensures RunOk(s', r) {
        assert RunOk(s, r);
      }
      forall x | 0 <= x < |s'.calls| ensures CallOk(s', x) {
        CallTimedOut(s, c, x);
      }
      forall k | k in s'.waiters ensures ListOk(s', k) {
        ListTimedOut(s, c, k);
      }
    }
  }

  lemma {:induction false} CallTimedOut(s: State, c: nat, x: nat)
    requires Inv(s) && c < |s.calls| && s.calls[c].state.Waiting? && x < |s.calls|
    ensures CallOk(AfterTimeout(s, c), x)
  {
    var key := s.calls[c].key;
    assert CallOk(s, c) && CallOk(s, x) && ListOk(s, key);
    WithoutKeeps(s.waiters[key], c);
    if x != c && s.calls[x].state.Waiting? && s.calls[x].key == key {
      assert x in Without(s.waiters[key], c);
    }
  }

  // ----- Cleanup -----

  /** A cleanup that leaves the records of runs in flight alone. */
  ghost predicate Careful(s: State, a: Action) {
    a.Cleanup? ==> forall k {:trigger k in Expired(s, a.now)} :: k in Expired(s, a.now) ==>
      s.store[k].status != Processing
  }

  lemma {:induction false} CleanupInv(s: State, now: int)
    requires Inv(s) && Careful(s, Cleanup(now))
    ensures Inv(AfterCleanup(s, now))
  {
    var s' := AfterCleanup(s, now);
    forall k | k in s'.store ensures KeyOk(s', k) {
      assert KeyOk(s, k);
    }
    forall r | 0 <= r < |s'.runs| ensures RunOk(s', r) {
      RunsCleaned(s, now, r);
    }
    forall c | 0 <= c < |s'.calls| ensures CallOk(s', c) {
      assert CallOk(s, c);
    }
    forall k | k in s'.waiters ensures ListOk(s', k) {
      assert ListOk(s, k);
      forall i | 0 <= i < |s.waiters[k]| ensures WaiterOk(s', k, i) {
        assert WaiterOk(s, k, i);
      }
    }
  }

  /** Leaving them alone is exactly what a cleanup must do to keep the invariant. */
  lemma {:induction false} CleanupKeepsExactly(s: State, now: int)
    requires Inv(s)
    ensures Inv(AfterCleanup(s, now)) <==> Careful(s, Cleanup(now))
  {
    if Careful(s, Cleanup(now)) {
      CleanupInv(s, now);
    } else {
      var k :| k in Expired(s, now) && s.store[k].status == Processing;
      assert KeyOk(s, k);
      assert !RunOk(AfterCleanup(s, now), s.writer[k]);
    }
  }

  lemma {:induction false} RunsCleaned(s: State, now: int, r: nat)
    requires Inv(s) && Careful(s, Cleanup(now)) && r < |s.runs|
    ensures RunOk(AfterCleanup(s, now), r)
  {
    assert RunOk(s, r);
    var key := s.runs[r].key;
    if key in s.store {
      assert KeyOk(s, key);
      if key in Expired(s, now) && s.writer[key] == r {
        assert r in AfterCleanup(s, now).forgotten;
      }
    }
  }

  // ----- runs of the store -----

  ghost function RunAll(s: State, acts: seq<Action>): State {
    if acts == [] then s else Step(RunAll(s, acts[..|acts| - 1]), acts[|acts| - 1])
  }

  /** No cleanup of the run removes the record of a run in flight. */
  ghost predicate AllCareful(s: State, acts: seq<Action>) {
    acts == [] || (AllCareful(s, acts[..|acts| - 1]) && Careful(RunAll(s, acts[..|acts| - 1]), acts[|acts| - 1]))
  }

  lemma {:induction false} StepInv(s: State, a: Action)
    requires Inv(s) && Careful(s, a)
    ensures Inv(Step(s, a))
  {
    match a
    case Begin(key, reject, expiresAt) => BeginInv(s, key, reject, expiresAt);
    case Finish(r, outcome) => FinishInv(s, r, outcome);
    case Timeout(c) => TimeoutInv(s, c);
    case Cleanup(now) => CleanupInv(s, now);
  }

  lemma {:induction false} RunInv(s: State, acts: seq<Action>)
    requires Inv(s) && AllCareful(s, acts)
    ensures Inv(RunAll(s, acts))
  {
    if acts != [] {
      RunInv(s, acts[..|acts| - 1]);
      StepInv(RunAll(s, acts[..|acts| - 1]), acts[|acts| - 1]);
    }
  }

  ghost predicate InFlightFor(s: State, key: string, r: nat) {
    r < |s.runs| && s.runs[r].state == InFlight && s.runs[r].key == key
  }

  /** In every run: a key's record says processing exactly when a run of it is in flight, and then one is. */
  lemma {:induction false} ProcessingMeansOneRun(acts: seq<Action>, key: string)
    requires AllCareful(New(), acts)
    ensures var s := RunAll(New(), acts);
      && ((key in s.store && s.store[key].status == Processing) <==> exists r :: InFlightFor(s, key, r))
      && forall r, r' :: InFlightFor(s, key, r) && InFlightFor(s, key, r') ==> r == r'
  {
    var s := RunAll(New(), acts);
    RunInv(New(), acts);
    if key in s.store {
      assert KeyOk(s, key);
      if s.store[key].status == Processing {
        assert InFlightFor(s, key, s.writer[key]);
      }
    }
    forall r | InFlightFor(s, key, r) ensures key in s.store && s.store[key].status == Processing {
      assert RunOk(s, r) && KeyOk(s, key);
    }
    forall r, r' | InFlightFor(s, key, r) && InFlightFor(s, key, r') ensures r == r' {
      OneInFlight(s, r, r');
    }
  }

  ghost predicate Succeeded(s: State, key: string, r: nat) {
    r < |s.runs| && s.runs[r].key == key && s.runs[r].state.Done? && s.runs[r].state.outcome.Ok?
  }

  /** In every run: of the runs for a key at most one succeeds, as long as the record of the first that did is
      not cleaned up; and while there is its record no run is in flight. */
  lemma {:induction false} SucceedsOnce(acts: seq<Action>, key: string, r: nat, r': nat)
    requires AllCareful(New(), acts)
    ensures var s := RunAll(New(), acts);
      Succeeded(s, key, r) && r !in s.forgotten ==>
        && !InFlightFor(s, key, r')
        && (Succeeded(s, key, r') && r' !in s.forgotten ==> r' == r)
  {
    var s := RunAll(New(), acts);
    RunInv(New(), acts);
    if Succeeded(s, key, r) && r !in s.forgotten {
      assert RunOk(s, r) && KeyOk(s, key);
      if r' < |s.runs| {
        assert RunOk(s, r');
      }
    }
  }

  ghost predicate GotValue(s: State, c: nat, key: string, v: string) {
    c < |s.calls| && s.calls[c].key == key && s.calls[c].state.Settled? && s.calls[c].state.answer == Answered(Ok(v))
  }

  /** In every run without cleanups, all calls of a key that return a value return the same one. */
  lemma {:induction false} SameValueForAll(acts: seq<Action>, key: string, c: nat, v: string, c': nat, v': string)
    requires forall i :: 0 <= i < |acts| ==> !acts[i].Cleanup?
    requires GotValue(RunAll(New(), acts), c, key, v) && GotValue(RunAll(New(), acts), c', key, v')
    ensures v == v'
  {
    var s := RunAll(New(), acts);
    WithoutCleanup(acts);
    RunInv(New(), acts);
    assert CallOk(s, c) && CallOk(s, c');
    SucceedsOnce(acts, key, s.calls[c].state.reason, s.calls[c'].state.reason);
  }

  lemma {:induction false} WithoutCleanup(acts: seq<Action>)
    requires forall i :: 0 <= i < |acts| ==> !acts[i].Cleanup?
    ensures AllCareful(New(), acts) && RunAll(New(), acts).forgotten == {}
  {
    if acts != [] { WithoutCleanup(acts[..|acts| - 1]); }
  }

  /** Once a key's run has succeeded, and while its record is kept, a call returns its response at once and
      nothing is run. */
  lemma {:induction false} LaterCallsAnswered(s: State, key: string, r: nat, reject: bool, expiresAt: int)
    requires Inv(s) && Succeeded(s, key, r) && r !in s.forgotten
    ensures var s' := AfterBegin(s, key, reject, expiresAt);
      s'.runs == s.runs && s'.calls == s.calls + [Call(key, Settled(Answered(s.runs[r].state.outcome), r))]
  {
    assert RunOk(s, r) && KeyOk(s, key);
  }

  /** While a run of its key is in flight a call that says reject gets the conflict at once, and nothing else
      changes. */
  lemma {:induction false} RejectedAtOnce(s: State, key: string, r: nat, expiresAt: int)
    requires Inv(s) && InFlightFor(s, key, r)
    ensures AfterBegin(s, key, true, expiresAt) == s.(calls := s.calls + [Call(key, Settled(Conflict, r))])
  {
    assert RunOk(s, r) && KeyOk(s, key);
  }

  /** And one that says wait joins the end of the key's list, and no run is started. */
  lemma {:induction false} WaitsForRun(s: State, key: string, r: nat, expiresAt: int)
    requires Inv(s) && InFlightFor(s, key, r)
    ensures var s' := AfterBegin(s, key, false, expiresAt);
      && s'.calls == s.calls + [Call(key, Waiting(r))] && s'.runs == s.runs && s'.store == s.store
      && key in s'.waiters && s'.waiters - {key} == s.waiters - {key}
      && s'.waiters[key] == (if key in s.waiters then s.waiters[key] else []) + [|s.calls|]
  {
    assert RunOk(s, r) && KeyOk(s, key);
  }

  /** With no record of the key, or the record of a run that failed, a call starts exactly one run, its own. */
  lemma {:induction false} StartsOwnRun(s: State, key: string, reject: bool, expiresAt: int)
    requires Inv(s) && (key in s.store ==> s.writer[key] < |s.runs| && FailedRun(s.runs[s.writer[key]]))
    ensures var s' := AfterBegin(s, key, reject, expiresAt);
      && s'.runs == s.runs + [Run(key, |s.calls|, expiresAt, InFlight)]
      && s'.calls == s.calls + [Call(key, Owner(|s.runs|))]
      && s'.store == s.store[key := Record(Processing, expiresAt)] && s'.waiters == s.waiters
  {
    if key in s.store { assert KeyOk(s, key); }
  }

  predicate FailedRun(run: Run) {
    run.state.Done? && run.state.outcome.Err?
  }

  /** When a run is over its owner and all that wait for it have its outcome, and no other call is touched; and
      its key has no list any more. */
  lemma {:induction false} FinishAnswers(s: State, r: nat, outcome: Outcome, c: nat)
    requires Inv(s) && Finishes(s, r) && c < |s.calls|
    ensures var s' := AfterFinish(s, r, outcome);
      && |s'.calls| == |s.calls| && s'.waiters == s.waiters - {s.runs[r].key}
      && s'.calls[c] == if s.calls[c].state == Owner(r) || s.calls[c].state == Waiting(r)
           then s.calls[c].(state := Settled(Answered(outcome), r)) else s.calls[c]
  {
    var k := s.runs[r].key;
    assert RunOk(s, r) && CallOk(s, c);
    if k in s.waiters && c in s.waiters[k] {
      assert ListOk(s, k);
      var i :| 0 <= i < |s.waiters[k]| && s.waiters[k][i] == c;
      assert WaiterOk(s, k, i);
      OneInFlight(s, r, s.calls[c].state.run);
    }
  }

  /** Until its run is over or its timer goes off a waiting call waits. */
  lemma {:induction false} GoesOnWaiting(s: State, more: seq<Action>, c: nat, r: nat)
    requires Inv(s) && AllCareful(s, more) && c < |s.calls| && s.calls[c].state == Waiting(r)
    requires Timeout(c) !in more && Finishes(RunAll(s, more), r)
    ensures c < |RunAll(s, more).calls| && RunAll(s, more).calls[c] == s.calls[c]
  {
    if more != [] {
      var before, a := more[..|more| - 1], more[|more| - 1];
      var s1 := RunAll(s, before);
      assert a in more;
      RunInv(s, before);
      EachCallSettlesOnce(s, before, c);
      StepGrows(s1, a);
      assert Finishes(s1, r) by { StillInFlight(s1, a, r); }
      GoesOnWaiting(s, before, c, r);
      StepWaits(s1, a, c);
      if a.Finish? && Finishes(s1, a.run) { FinishAnswers(s1, a.run, a.outcome, c); }
    }
  }

  /** A call that waits for a run, whatever happens meanwhile but its timeout, gets the run's outcome when it is
      over, also when that is a failure. */
  lemma {:induction false} WaiterGetsOutcome(acts: seq<Action>, key: string, r: nat, expiresAt: int,
                                             more: seq<Action>, outcome: Outcome)
    requires AllCareful(New(), acts) && InFlightFor(RunAll(New(), acts), key, r)
    requires var s := RunAll(New(), acts); var s1 := AfterBegin(s, key, false, expiresAt);
      AllCareful(s1, more) && Timeout(|s.calls|) !in more && Finishes(RunAll(s1, more), r)
    ensures var s := RunAll(New(), acts);
      var s2 := AfterFinish(RunAll(AfterBegin(s, key, false, expiresAt), more), r, outcome);
      |s.calls| < |s2.calls| && s2.calls[|s.calls|] == Call(key, Settled(Answered(outcome), r))
  {
    var s := RunAll(New(), acts);
    var s1 := AfterBegin(s, key, false, expiresAt);
    RunInv(New(), acts);
    WaitsForRun(s, key, r, expiresAt);
    BeginInv(s, key, false, expiresAt);
    GoesOnWaiting(s1, more, |s.calls|, r);
    RunInv(s1, more);
    FinishAnswers(RunAll(s1, more), r, outcome, |s.calls|);
  }

  /** What may become of a waiting call: nothing yet, its timeout, or the outcome of the run it waited for. */
  ghost predicate WaitedOut(s': State, c: nat, r: nat) {
    c < |s'.calls| && r < |s'.runs| &&
    match s'.calls[c].state
    case Waiting(r') => r' == r
    case Settled(answer, r') =>
      r' == r && (answer == TimedOut || (s'.runs[r].state.Done? && answer == Answered(s'.runs[r].state.outcome)))
    case Owner(_) => false
  }

  /** Answers and outcomes are final. */
  ghost predicate Grows(s: State, s': State) {
    && |s.calls| <= |s'.calls| && |s.runs| <= |s'.runs|
    && (forall c :: 0 <= c < |s.calls| && s.calls[c].state.Settled? ==> s'.calls[c] == s.calls[c])
    && (forall r :: 0 <= r < |s.runs| && s.runs[r].state.Done? ==> s'.runs[r] == s.runs[r])
  }

  lemma {:induction false} StepGrows(s: State, a: Action)
    requires Inv(s)
    ensures Grows(s, Step(s, a))
  {
    if a.Finish? && Finishes(s, a.run) {
      var k := s.runs[a.run].key;
      assert RunOk(s, a.run);
      forall c | 0 <= c < |s.calls| && s.calls[c].state.Settled? ensures k in s.waiters ==> c !in s.waiters[k] {
        if k in s.waiters { SettledNotWaiting(s, c, k); }
      }
    }
  }

  lemma StillInFlight(s: State, a: Action, r: nat)
    requires r < |s.runs| && Finishes(Step(s, a), r)
    ensures Finishes(s, r)
  {
  }

  lemma {:induction false} SettledNotWaiting(s: State, c: nat, k: string)
    requires Inv(s) && c < |s.calls| && s.calls[c].state.Settled? && k in s.waiters
    ensures c !in s.waiters[k]
  {
    assert ListOk(s, k);
    forall i | 0 <= i < |s.waiters[k]| ensures s.waiters[k][i] != c {
      assert WaiterOk(s, k, i);
    }
  }

  lemma {:induction false} StepWaits(s: State, a: Action, c: nat)
    requires Inv(s) && c < |s.calls| && s.calls[c].state.Waiting?
    ensures WaitedOut(Step(s, a), c, s.calls[c].state.run)
  {
    assert CallOk(s, c);
    if a.Finish? && Finishes(s, a.run) {
      assert RunOk(s, a.run);
      if s.calls[c].key == s.runs[a.run].key {
        OneInFlight(s, a.run, s.calls[c].state.run);
      } else {
        NotTold(s, a.run, c);
      }
    }
  }

  /** In every run, a call settles at most once; one that waits settles by its timeout or with the outcome of
      the very run it waited for, which is over then. */
  lemma {:induction false} EachCallSettlesOnce(s: State, acts: seq<Action>, c: nat)
    requires Inv(s) && AllCareful(s, acts) && c < |s.calls|
    ensures Grows(s, RunAll(s, acts))
    ensures s.calls[c].state.Waiting? ==> WaitedOut(RunAll(s, acts), c, s.calls[c].state.run)
    ensures s.calls[c].state.Settled? ==> RunAll(s, acts).calls[c] == s.calls[c]
  {
    if acts == [] {
      assert CallOk(s, c);
    } else {
      var before, a := acts[..|acts| - 1], acts[|acts| - 1];
      var s1 := RunAll(s, before);
      EachCallSettlesOnce(s, before, c);
      RunInv(s, before);
      StepGrows(s1, a);
      if s1.calls[c].state.Waiting? {
        StepWaits(s1, a, c);
      }
    }
  }

  ghost predicate OneRunPerKey(s: State) {
    forall key, r, r' :: InFlightFor(s, key, r) && InFlightFor(s, key, r') ==> r == r'
  }

  /** A cleanup that removes the record of a run in flight lets a second run start beside it. */
  lemma {:induction false} CleanupInFlightBreaksIt(s: State, now: int, key: string, reject: bool, expiresAt: int)
    requires Inv(s) && key in Expired(s, now) && s.store[key].status == Processing
    ensures var s' := AfterBegin(AfterCleanup(s, now), key, reject, expiresAt);
      InFlightFor(s', key, s.writer[key]) && InFlightFor(s', key, |s.runs|) && s.writer[key] < |s.runs|
  {
    assert KeyOk(s, key);
    assert AfterCleanup(s, now).runs == s.runs && key !in AfterCleanup(s, now).store;
  }

  lemma {:induction false} InvMeansOneRun(s: State)
    requires Inv(s)
    ensures OneRunPerKey(s)
  {
    forall key, r, r' | InFlightFor(s, key, r) && InFlightFor(s, key, r') ensures r == r' {
      OneInFlight(s, r, r');
    }
  }

  /** However the store goes on, with careful cleanups: no key has two runs in flight. */
  ghost predicate SafeFrom(s: State) {
    forall more :: AllCareful(s, more) ==> OneRunPerKey(RunAll(s, more))
  }

  lemma {:induction false} RunOne(s: State, a: Action)
    requires Careful(s, a)
    ensures AllCareful(s, [a]) && RunAll(s, [a]) == Step(s, a)
  {
    assert [a][..0] == [];
    assert AllCareful(s, []) && RunAll(s, []) == s;
  }

  lemma {:induction false} BrokenNotSafe(s: State, now: int, key: string)
    requires Inv(s) && key in Expired(s, now) && s.store[key].status == Processing
    ensures !SafeFrom(AfterCleanup(s, now))
  {
    var s1, a := AfterCleanup(s, now), Begin(key, false, 0);
    CleanupInFlightBreaksIt(s, now, key, false, 0);
    RunOne(s1, a);
    assert InFlightFor(RunAll(s1, [a]), key, s.writer[key]) && InFlightFor(RunAll(s1, [a]), key, |s.runs|);
    assert !OneRunPerKey(RunAll(s1, [a]));
  }

  /** From any state that a run reaches: after a cleanup, and as long as later ones are careful, no key ever
      has two runs in flight, if and only if the cleanup leaves the records that say processing alone. */
  lemma {:induction false} CleanupSafeExactly(acts: seq<Action>, now: int)
    requires AllCareful(New(), acts)
    ensures var s := RunAll(New(), acts); SafeFrom(AfterCleanup(s, now)) <==> Careful(s, Cleanup(now))
  {
    RunInv(New(), acts);
    var s := RunAll(New(), acts);
    var s1 := AfterCleanup(s, now);
    if Careful(s, Cleanup(now)) {
      CleanupInv(s, now);
      forall more | AllCareful(s1, more) ensures OneRunPerKey(RunAll(s1, more)) {
        RunInv(s1, more);
        InvMeansOneRun(RunAll(s1, more));
      }
    } else {
      var key :| key in Expired(s, now) && s.store[key].status == Processing;
      BrokenNotSafe(s, now, key);
    }
  }

  // ----- the code -----

  /** Beside the two maps of the code: what has been run, and what each call of execute has come to. */
  class IdempotencyKeyStore {
    var store: map<string, Record>
    var waiters: map<string, seq<nat>>
    var runs: seq<Run>
    var calls: seq<Call>
    var writer: map<string, nat>
    ghost var forgotten: set<nat>

    ghost function Value(): State
      reads this
    {
      State(store, waiters, runs, calls, writer, forgotten)
    }

    constructor ()
      ensures Value() == New()
    {
      store, waiters, runs, calls, writer, forgotten := map[], map[], [], [], map[], {};
    }

    /** execute, up to the call of fn; started tells whether fn is called. */
    method Begin(key: string, reject: bool, now: int, ttlMs: int) returns (started: bool)
      requires Inv(Value())
      modifies this
      ensures Inv(Value()) && Value() == AfterBegin(old(Value()), key, reject, now + ttlMs)
      ensures started <==> runs != old(runs)
    {
      BeginInv(Value(), key, reject, now + ttlMs);
      started := false;
      if key in store {
        assert key in writer;
        var existing := store[key];
        if existing.status.Completed? {
          calls := calls + [Call(key, Settled(Answered(Ok(existing.status.response)), writer[key]))];
          return;
        }
        if existing.status.Processing? {
          if reject {
            calls := calls + [Call(key, Settled(Conflict, writer[key]))];
          } else {
            WaitForResult(key);
          }
          return;
        }
        if existing.status.Failed? {
          store := store - {key};
        }
      }
      Start(key, now + ttlMs);
      assert store == old(store)[key := Record(Processing, now + ttlMs)];
      started := true;
    }

    method Start(key: string, expiresAt: int)
      modifies this
      ensures Value() == StartRun(old(Value()), key, expiresAt)
    {
      store := store[key := Record(Processing, expiresAt)];
      writer := writer[key := |runs|];
      calls := calls + [Call(key, Owner(|runs|))];
      runs := runs + [Run(key, |calls| - 1, expiresAt, InFlight)];
    }

    method WaitForResult(key: string)
      requires key in writer
      modifies this`waiters, this`calls
      ensures Value() == Wait(old(Value()), key, writer[key])
    {
      var list := if key in waiters then waiters[key] else [];
      waiters := waiters[key := list + [|calls|]];
      calls := calls + [Call(key, Waiting(writer[key]))];
    }

    /** What execute does when fn has settled. */
    method Finish(r: nat, outcome: Outcome)
      requires Inv(Value()) && Finishes(Value(), r)
      modifies this
      ensures Inv(Value()) && Value() == AfterFinish(old(Value()), r, outcome)
    {
      ghost var s := Value();
      FinishInv(s, r, outcome);
      assert RunOk(s, r);
      var run := runs[r];
      var answer := Answered(outcome);
      runs := runs[r := run.(state := Done(outcome))];
      store := store[run.key := Record(StatusOf(outcome), run.expiresAt)];
      writer := writer[run.key := r];
      ghost var list := if run.key in waiters then waiters[run.key] else [];
      forall c | c in list ensures c < |calls| {
        assert ListOk(s, run.key);
        var i :| 0 <= i < |list| && list[i] == c;
        assert WaiterOk(s, run.key, i);
      }
      NotifyWaiters(run.key, answer, r);
      calls := calls[run.owner := calls[run.owner].(state := Settled(answer, r))];
      ToldOne(s.calls, list, run.owner, answer, r);
    }

    method NotifyWaiters(key: string, answer: Answer, reason: nat)
      requires key in waiters ==> forall c :: c in waiters[key] ==> c < |calls|
      modifies this`waiters, this`calls
      ensures waiters == old(waiters) - {key}
      ensures calls == Told(old(calls), if key in old(waiters) then old(waiters)[key] else [], answer, reason)
    {
      if key !in waiters {
        assert calls == Told(calls, [], answer, reason);
        assert waiters == waiters - {key};
        return;
      }
      var list := waiters[key];
      waiters := waiters - {key};
      assert calls == Told(calls, [], answer, reason);
      for i := 0 to |list|
        invariant calls == Told(old(calls), list[..i], answer, reason) && waiters == old(waiters) - {key}
      {
        var c := list[i];
        assert c in list;
        ToldOne(old(calls), list[..i], c, answer, reason);
        calls := calls[c := calls[c].(state := Settled(answer, reason))];
        assert list[..i + 1] == list[..i] + [c];
      }
      assert list[..|list|] == list;
    }

    /** The timer of a waiting call goes off. */
    method Timeout(c: nat)
      requires Inv(Value()) && c < |calls| && calls[c].state.Waiting?
      modifies this`waiters, this`calls
      ensures Inv(Value()) && Value() == AfterTimeout(old(Value()), c)
    {
      TimeoutInv(Value(), c);
      RemoveHandler(calls[c].key, c);
      calls := calls[c := calls[c].(state := Settled(TimedOut, calls[c].state.run))];
    }

    /** removeWaiter */
    method RemoveHandler(key: string, c: nat)
      modifies this`waiters
      ensures waiters == RemoveWaiter(old(waiters), key, c)
    {
      if key !in waiters {
        return;
      }
      var list := waiters[key];
      var idx := 0;
      while idx < |list| && list[idx] != c
        invariant idx <= |list| && forall i :: 0 <= i < idx ==> list[i] != c
      {
        idx := idx + 1;
      }
      if idx < |list| {
        WithoutAt(list, idx);
        list := list[..idx] + list[idx + 1..];
        waiters := if |list| == 0 then waiters - {key} else waiters[key := list];
      }
    }

    /** cleanup, which a careful caller uses with no run in flight that long. */
    method Cleanup(now: int) returns (removed: nat)
      requires Inv(Value())
      modifies this`store, this`writer, this`forgotten
      ensures Value() == AfterCleanup(old(Value()), now)
      ensures forall k :: k in store <==> k in old(store) && old(store)[k].expiresAt >= now
      ensures forall k :: k in store ==> store[k] == old(store)[k]
      ensures removed == |old(store)| - |store|
    {
      ghost var s := Value();
      ghost var gone;
      removed, gone := RemoveExpired(now);
      forgotten := forgotten + RunsOf(s.writer, gone);
      CleanupMeans(s, now);
    }

    /** The loop of cleanup. */
    method RemoveExpired(now: int) returns (removed: nat, ghost gone: set<string>)
      modifies this`store, this`writer
      ensures gone == Expired(old(Value()), now) && removed == |gone|
      ensures store == old(store) - gone && writer == old(writer) - gone
    {
      ghost var s := Value();
      gone := {};
      var todo := store.Keys;
      removed := 0;
      while todo != {}
        invariant todo <= s.store.Keys && removed == |gone| && gone <= s.store.Keys
        invariant forall k :: k in gone <==> k in s.store && k !in todo && s.store[k].expiresAt < now
        invariant store == s.store - gone && writer == s.writer - gone
        decreases |todo|
      {
        ghost var some := Pick(todo);
        var k :| k in todo;
        assert store[k] == s.store[k];
        if store[k].expiresAt < now {
          MapDropsBoth(s.store, gone, k);
          MapDropsBoth(s.writer, gone, k);
          store, writer := store - {k}, writer - {k};
          gone := gone + {k};
          removed := removed + 1;
        }
        todo := todo - {k};
      }
    }
  }

  lemma MapDropsBoth<K, V>(m: map<K, V>, gone: set<K>, k: K)
    ensures m - gone - {k} == m - (gone + {k})
  {
  }

  lemma {:induction false} CleanupMeans(s: State, now: int)
    ensures var store := AfterCleanup(s, now).store;
      && (forall k :: k in store <==> k in s.store && s.store[k].expiresAt >= now)
      && (forall k :: k in store ==> store[k] == s.store[k])
      && |Expired(s, now)| == |s.store| - |store|
  {
    var gone := Expired(s, now);
    assert s.store.Keys == (s.store - gone).Keys + gone;
    assert |s.store| == |s.store.Keys| && |s.store - gone| == |(s.store - gone).Keys|;
  }

  lemma ToldOne(calls: seq<Call>, cs: seq<nat>, c: nat, answer: Answer, reason: nat)
    requires c < |calls|
    ensures Told(calls, cs + [c], answer, reason)
         == Told(calls, cs, answer, reason)[c := Told(calls, cs, answer, reason)[c].(state := Settled(answer, reason))]
  {
  }

  lemma {:induction false} WithoutAt(list: seq<nat>, i: nat)
    requires i < |list| && forall j :: 0 <= j < i ==> list[j] != list[i]
    ensures Without(list, list[i]) == list[..i] + list[i + 1..]
  {
    if i > 0 {
      WithoutAt(list[1..], i - 1);
      assert list[..i] == [list[0]] + list[1..][..i - 1];
    }
  }
}
