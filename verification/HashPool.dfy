/** The hashing pool of app/services/auth_service.go: callers of HashPassword and CompareHashes send a
    task down a channel of capacity poolSize, poolSize workers take tasks from it, and each caller waits
    on a result channel of its own that holds one result.

    The protocol is a state machine over its atomic steps; every interleaving of callers and workers is
    a sequence of them.  Caller c's task is the number c, and `work(c)` is the value it computes. */
module HashPool {
  import opened Wrappers

  datatype Caller<R> =
    | Submitting                // blocked or about to send on HashPool
    | Waiting                   // blocked on its result channel
    | Returned(result: R)

  datatype Worker = Idle | Busy(task: nat)

  datatype State<R> = State(
    callers: seq<Caller<R>>,
    queue: seq<nat>,               // HashPool's buffer, oldest first
    workers: seq<Worker>,
    results: seq<Option<R>>,       // the callers' result channels
    runs: seq<nat>)                // how often each caller's task has run

  datatype Action =
    | Submit(c: nat)    // a caller sends its task down the pool's channel
    | Take(w: nat)      // an idle worker takes the oldest task
    | Finish(w: nat)    // a worker runs its task and sends on the caller's result channel
    | Receive(c: nat)   // a caller takes its result

  function Init<R>(callers: nat, poolSize: nat): State<R> {
    State(seq(callers, _ => Submitting), [], seq(poolSize, _ => Idle), seq(callers, _ => None), seq(callers, _ => 0))
  }

  predicate Enabled<R>(s: State<R>, poolSize: nat, a: Action) {
    match a
    case Submit(c) => c < |s.callers| && s.callers[c].Submitting? && |s.queue| < poolSize
    case Take(w) => w < |s.workers| && s.workers[w].Idle? && s.queue != []
    case Finish(w) =>
      && w < |s.workers| && s.workers[w].Busy?
      && s.workers[w].task < |s.results| == |s.runs| && s.results[s.workers[w].task].None?
    case Receive(c) => c < |s.callers| && s.callers[c].Waiting? && c < |s.results| && s.results[c].Some?
  }

  function Do<R>(s: State<R>, poolSize: nat, work: nat -> R, a: Action): State<R>
    requires Enabled(s, poolSize, a)
  {
    match a
    case Submit(c) => s.(callers := s.callers[c := Waiting], queue := s.queue + [c])
    case Take(w) => s.(workers := s.workers[w := Busy(s.queue[0])], queue := s.queue[1..])
    case Finish(w) =>
      var c := s.workers[w].task;
      s.(workers := s.workers[w := Idle], results := s.results[c := Some(work(c))], runs := s.runs[c := s.runs[c] + 1])
    case Receive(c) =>
      s.(callers := s.callers[c := Returned(s.results[c].value)], results := s.results[c := None])
  }

  // ---------- runs ----------

  /** A run is the sequence of states it goes through. */
  ghost predicate IsRun<R(!new)>(states: seq<State<R>>, callers: nat, poolSize: nat, work: nat -> R) {
    && |states| >= 1
    && states[0] == Init(callers, poolSize)
    && forall i :: 0 <= i < |states| - 1 ==> Steps(states[i], states[i + 1], poolSize, work)
  }

  ghost predicate Steps<R(!new)>(s: State<R>, s': State<R>, poolSize: nat, work: nat -> R) {
    exists a :: Enabled(s, poolSize, a) && s' == Do(s, poolSize, work, a)
  }

  // ---------- the invariant ----------

  ghost predicate Queued<R(!new)>(s: State<R>, c: nat) {
    c in s.queue
  }

  ghost predicate InProgress<R(!new)>(s: State<R>, c: nat) {
    exists w :: 0 <= w < |s.workers| && s.workers[w] == Busy(c)
  }

  /** Where caller c's task is: exactly one of not sent, queued, running, answered or returned. */
  ghost predicate CallerInv<R(!new)>(s: State<R>, work: nat -> R, c: nat)
    requires c < |s.callers| == |s.results| == |s.runs|
  {
    match s.callers[c]
    case Submitting => !Queued(s, c) && !InProgress(s, c) && s.results[c].None? && s.runs[c] == 0
    case Waiting =>
      || (Queued(s, c) && !InProgress(s, c) && s.results[c].None? && s.runs[c] == 0)
      || (!Queued(s, c) && InProgress(s, c) && s.results[c].None? && s.runs[c] == 0)
      || (!Queued(s, c) && !InProgress(s, c) && s.results[c] == Some(work(c)) && s.runs[c] == 1)
    case Returned(r) => !Queued(s, c) && !InProgress(s, c) && s.results[c].None? && s.runs[c] == 1 && r == work(c)
  }

  ghost predicate Inv<R(!new)>(s: State<R>, callers: nat, poolSize: nat, work: nat -> R) {
    && |s.callers| == |s.results| == |s.runs| == callers
    && |s.workers| == poolSize && |s.queue| <= poolSize
    && (forall i :: 0 <= i < |s.queue| ==> s.queue[i] < callers)
    && (forall i, j :: 0 <= i < j < |s.queue| ==> s.queue[i] != s.queue[j])
    && (forall w :: 0 <= w < poolSize && s.workers[w].Busy? ==> s.workers[w].task < callers)
    && (forall v, w :: 0 <= v < w < poolSize && s.workers[v].Busy? ==> s.workers[v] != s.workers[w])
    && (forall c :: 0 <= c < callers ==> CallerInv(s, work, c))
  }

  lemma InitInv<R(!new)>(callers: nat, poolSize: nat, work: nat -> R)
    ensures Inv(Init(callers, poolSize), callers, poolSize, work)
  {
  }

  lemma SubmitInv<R(!new)>(s: State<R>, callers: nat, poolSize: nat, work: nat -> R, a: Action)
    requires Inv(s, callers, poolSize, work) && a.Submit? && Enabled(s, poolSize, a)
    ensures Inv(Do(s, poolSize, work, a), callers, poolSize, work)
  {
    var s' := Do(s, poolSize, work, a);
    assert CallerInv(s, work, a.c);
    forall c | 0 <= c < callers
      ensures CallerInv(s', work, c)
    {
      assert CallerInv(s, work, c);
      assert Queued(s', c) <==> Queued(s, c) || c == a.c;
      assert InProgress(s', c) <==> InProgress(s, c);
    }
  }

  lemma TakeInv<R(!new)>(s: State<R>, callers: nat, poolSize: nat, work: nat -> R, a: Action)
    requires Inv(s, callers, poolSize, work) && a.Take? && Enabled(s, poolSize, a)
    ensures Inv(Do(s, poolSize, work, a), callers, poolSize, work)
  {
    var s' := Do(s, poolSize, work, a);
    var t := s.queue[0];
    assert CallerInv(s, work, t) && Queued(s, t);
    assert s'.workers[a.w] == Busy(t);
    forall w | 0 <= w < poolSize && s.workers[w].Busy?
      ensures s.workers[w].task != t
    {
      assert InProgress(s, s.workers[w].task);
    }
    forall c | 0 <= c < callers
      ensures CallerInv(s', work, c)
    {
      assert CallerInv(s, work, c);
      assert s.queue == [t] + s'.queue;
      assert Queued(s, c) <==> Queued(s', c) || c == t;
      assert InProgress(s', c) <==> InProgress(s, c) || c == t by {
        if w :| 0 <= w < poolSize && s.workers[w] == Busy(c) {
          assert s'.workers[w] == Busy(c);
        }
      }
    }
  }

  lemma FinishInv<R(!new)>(s: State<R>, callers: nat, poolSize: nat, work: nat -> R, a: Action)
    requires Inv(s, callers, poolSize, work) && a.Finish? && Enabled(s, poolSize, a)
    ensures Inv(Do(s, poolSize, work, a), callers, poolSize, work)
  {
    var s' := Do(s, poolSize, work, a);
    var t := s.workers[a.w].task;
    assert InProgress(s, t) && CallerInv(s, work, t);
    forall c | 0 <= c < callers
      ensures CallerInv(s', work, c)
    {
      assert CallerInv(s, work, c);
      assert Queued(s', c) <==> Queued(s, c);
      assert InProgress(s', c) <==> InProgress(s, c) && c != t by {
        if w :| 0 <= w < poolSize && s.workers[w] == Busy(c) {
          assert c != t ==> s'.workers[w] == Busy(c);
        }
        if w :| 0 <= w < poolSize && s'.workers[w] == Busy(c) {
          assert s.workers[w] == Busy(c) && w != a.w;
        }
      }
    }
  }

  lemma ReceiveInv<R(!new)>(s: State<R>, callers: nat, poolSize: nat, work: nat -> R, a: Action)
    requires Inv(s, callers, poolSize, work) && a.Receive? && Enabled(s, poolSize, a)
    ensures Inv(Do(s, poolSize, work, a), callers, poolSize, work)
  {
    var s' := Do(s, poolSize, work, a);
    assert CallerInv(s, work, a.c);
    forall c | 0 <= c < callers
      ensures CallerInv(s', work, c)
    {
      assert CallerInv(s, work, c);
      assert Queued(s', c) <==> Queued(s, c);
      assert InProgress(s', c) <==> InProgress(s, c);
    }
  }

  /** Every state of every run satisfies the invariant. */
  lemma {:induction false} RunInv<R(!new)>(
    states: seq<State<R>>, i: nat, callers: nat, poolSize: nat, work: nat -> R)
    requires IsRun(states, callers, poolSize, work) && i < |states|
    ensures Inv(states[i], callers, poolSize, work)
  {
    if i == 0 {
      InitInv(callers, poolSize, work);
    } else {
      RunInv(states, i - 1, callers, poolSize, work);
      assert Steps(states[i - 1], states[i - 1 + 1], poolSize, work);
      var a :| Enabled(states[i - 1], poolSize, a) && states[i] == Do(states[i - 1], poolSize, work, a);
      match a {
        case Submit(_) => SubmitInv(states[i - 1], callers, poolSize, work, a);
        case Take(_) => TakeInv(states[i - 1], callers, poolSize, work, a);
        case Finish(_) => FinishInv(states[i - 1], callers, poolSize, work, a);
        case Receive(_) => ReceiveInv(states[i - 1], callers, poolSize, work, a);
      }
    }
  }

  // ---------- safety ----------

  /** In every run: the queue never exceeds poolSize; no task runs twice, and one has run once exactly
      when its result exists; and a caller that returned has the result of its own task. */
  lemma PoolSafety<R(!new)>(states: seq<State<R>>, i: nat, c: nat, callers: nat, poolSize: nat, work: nat -> R)
    requires IsRun(states, callers, poolSize, work) && i < |states| && c < callers
    ensures var s := states[i];
      && |s.queue| <= poolSize
      && |s.callers| == |s.results| == |s.runs| == callers
      && s.runs[c] <= 1
      && (s.runs[c] == 1 <==> s.results[c].Some? || s.callers[c].Returned?)
      && (s.callers[c].Returned? ==> s.callers[c].result == work(c))
  {
    RunInv(states, i, callers, poolSize, work);
    assert CallerInv(states[i], work, c);
  }

  // ---------- progress ----------

  function CallerCost<R>(c: Caller<R>): nat {
    match c
    case Submitting => 4
    case Waiting => 1
    case Returned(_) => 0
  }

  function WorkerCost(w: Worker): nat {
    if w.Busy? then 1 else 0
  }

  function CallersCost<R>(cs: seq<Caller<R>>): nat {
    if cs == [] then 0 else CallersCost(cs[..|cs| - 1]) + CallerCost(cs[|cs| - 1])
  }

  function WorkersCost(ws: seq<Worker>): nat {
    if ws == [] then 0 else WorkersCost(ws[..|ws| - 1]) + WorkerCost(ws[|ws| - 1])
  }

  /** Steps still to come: one task needs a submission, a take, a finish and a receive. */
  function Remaining<R>(s: State<R>): nat {
    CallersCost(s.callers) + 2 * |s.queue| + WorkersCost(s.workers)
  }

  lemma {:induction false} CallersCostUpdate<R>(cs: seq<Caller<R>>, i: nat, c: Caller<R>)
    requires i < |cs|
    ensures CallersCost(cs[i := c]) == CallersCost(cs) - CallerCost(cs[i]) + CallerCost(c)
  {
    var n := |cs| - 1;
    if i < n {
      CallersCostUpdate(cs[..n], i, c);
      assert cs[i := c][..n] == cs[..n][i := c];
    } else {
      assert cs[i := c][..n] == cs[..n];
    }
  }

  lemma {:induction false} WorkersCostUpdate(ws: seq<Worker>, i: nat, w: Worker)
    requires i < |ws|
    ensures WorkersCost(ws[i := w]) == WorkersCost(ws) - WorkerCost(ws[i]) + WorkerCost(w)
  {
    var n := |ws| - 1;
    if i < n {
      WorkersCostUpdate(ws[..n], i, w);
      assert ws[i := w][..n] == ws[..n][i := w];
    } else {
      assert ws[i := w][..n] == ws[..n];
    }
  }

  /** Every step uses up one unit, so a run from the start has at most four steps a caller. */
  lemma StepCostsOne<R(!new)>(s: State<R>, poolSize: nat, work: nat -> R, a: Action)
    requires Enabled(s, poolSize, a)
    ensures Remaining(Do(s, poolSize, work, a)) == Remaining(s) - 1
  {
    match a
    case Submit(c) => CallersCostUpdate(s.callers, c, Waiting);
    case Take(w) => WorkersCostUpdate(s.workers, w, Busy(s.queue[0]));
    case Finish(w) => WorkersCostUpdate(s.workers, w, Idle);
    case Receive(c) => CallersCostUpdate(s.callers, c, Returned(s.results[c].value));
  }

  lemma {:induction false} InitialCost<R>(callers: nat, poolSize: nat)
    ensures CallersCost(seq(callers, _ => Caller<R>.Submitting)) == 4 * callers
    ensures WorkersCost(seq(poolSize, _ => Idle)) == 0
    decreases callers + poolSize
  {
    if callers > 0 {
      InitialCost<R>(callers - 1, poolSize);
      assert seq(callers, _ => Caller<R>.Submitting)[..callers - 1] == seq(callers - 1, _ => Caller<R>.Submitting);
    } else if poolSize > 0 {
      InitialCost<R>(callers, poolSize - 1);
      assert seq(poolSize, _ => Idle)[..poolSize - 1] == seq(poolSize - 1, _ => Idle);
    }
  }

  /** The i-th state of a run is exactly i units cheaper than the start: runs are bounded. */
  lemma {:induction false} RunLength<R(!new)>(
    states: seq<State<R>>, i: nat, callers: nat, poolSize: nat, work: nat -> R)
    requires IsRun(states, callers, poolSize, work) && i < |states|
    ensures Remaining(states[i]) + i == 4 * callers
  {
    if i == 0 {
      InitialCost<R>(callers, poolSize);
    } else {
      RunLength(states, i - 1, callers, poolSize, work);
      assert Steps(states[i - 1], states[i - 1 + 1], poolSize, work);
      var a :| Enabled(states[i - 1], poolSize, a) && states[i] == Do(states[i - 1], poolSize, work, a);
      StepCostsOne(states[i - 1], poolSize, work, a);
    }
  }

  ghost predicate Stuck<R(!new)>(s: State<R>, poolSize: nat) {
    forall a :: !Enabled(s, poolSize, a)
  }

  /** With at least one worker, a reachable state with a caller that has not returned has a next step. */
  lemma NotStuck<R(!new)>(s: State<R>, c: nat, callers: nat, poolSize: nat, work: nat -> R)
    requires poolSize >= 1 && Inv(s, callers, poolSize, work)
    requires c < callers && !s.callers[c].Returned?
    ensures exists a :: Enabled(s, poolSize, a)
  {
    if w :| 0 <= w < poolSize && s.workers[w].Busy? {
      var t := s.workers[w].task;
      assert InProgress(s, t) && CallerInv(s, work, t);
      assert Enabled(s, poolSize, Finish(w));
    } else if s.queue != [] {
      assert Enabled(s, poolSize, Take(0));
    } else {
      assert CallerInv(s, work, c);
      if s.callers[c].Submitting? {
        assert Enabled(s, poolSize, Submit(c));
      } else {
        assert Enabled(s, poolSize, Receive(c));
      }
    }
  }

  /** A run can stop only when every caller has returned the result of its own task, each task having
      run exactly once, after exactly four steps a caller. */
  lemma EveryCallReturns<R(!new)>(states: seq<State<R>>, callers: nat, poolSize: nat, work: nat -> R)
    requires poolSize >= 1 && IsRun(states, callers, poolSize, work)
    requires Stuck(states[|states| - 1], poolSize)
    ensures var s := states[|states| - 1];
      && |s.callers| == |s.runs| == callers
      && forall c :: 0 <= c < callers ==> s.callers[c] == Returned(work(c)) && s.runs[c] == 1
    ensures |states| == 4 * callers + 1
  {
    var n := |states| - 1;
    RunInv(states, n, callers, poolSize, work);
    forall c | 0 <= c < callers
      ensures states[n].callers[c] == Returned(work(c)) && states[n].runs[c] == 1
    {
      if !states[n].callers[c].Returned? {
        NotStuck(states[n], c, callers, poolSize, work);
      }
      assert CallerInv(states[n], work, c);
    }
    RunLength(states, n, callers, poolSize, work);
    AllReturnedCost(states[n], callers, poolSize, work);
  }

  lemma {:induction false} ReturnedCost<R>(cs: seq<Caller<R>>)
    requires forall c :: 0 <= c < |cs| ==> cs[c].Returned?
    ensures CallersCost(cs) == 0
  {
    if cs != [] {
      ReturnedCost(cs[..|cs| - 1]);
    }
  }

  lemma {:induction false} IdleCost(ws: seq<Worker>)
    requires forall w :: 0 <= w < |ws| ==> ws[w].Idle?
    ensures WorkersCost(ws) == 0
  {
    if ws != [] {
      IdleCost(ws[..|ws| - 1]);
    }
  }

  lemma AllReturnedCost<R(!new)>(s: State<R>, callers: nat, poolSize: nat, work: nat -> R)
    requires Inv(s, callers, poolSize, work)
    requires forall c :: 0 <= c < callers ==> s.callers[c].Returned?
    ensures Remaining(s) == 0
  {
    ReturnedCost(s.callers);
    forall c | 0 <= c < callers
      ensures !InProgress(s, c) && !Queued(s, c)
    {
      assert CallerInv(s, work, c);
    }
    assert forall w :: 0 <= w < poolSize && s.workers[w].Busy? ==> InProgress(s, s.workers[w].task);
    IdleCost(s.workers);
    assert s.queue != [] ==> Queued(s, s.queue[0]);
  }

  /** Calls get through exactly when the pool has a worker: without one the first send blocks for ever. */
  lemma ProgressNeedsAWorker<R(!new)>(callers: nat, poolSize: nat)
    requires callers >= 1
    ensures Stuck(Init<R>(callers, poolSize), poolSize) <==> poolSize == 0
  {
    if poolSize >= 1 {
      assert Enabled(Init<R>(callers, poolSize), poolSize, Submit(0));
    }
  }
}
