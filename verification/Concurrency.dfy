/** The bounded-concurrency mapper (`src/utils/concurrency.ts`) as a state machine: a step
    is one worker's promise settling, and its runner going on to the next item. */
module Concurrency {
  import opened Wrappers
  import opened Floats

  /** A runner of the pool: not created yet, waiting for the item `index`, out of items, or
      gone because the worker failed on `index`. */
  datatype Runner = Waiting | Busy(index: nat) | Done | Failed(index: nat)

  datatype State<R> = State(n: nat, next: nat, runners: seq<Runner>, results: seq<Option<R>>, started: seq<nat>)

  datatype Event<R> = Resolved(w: nat, value: R) | Rejected(w: nat)

  // --- The number of runners ---

  function AtLeastOne(a: int, n: nat): nat {
    if a < 1 || n < 1 then 1 else if a < n then a else n
  }

  /** `limit` may be any number: NaN and zero count as one. */
  function Workers(limit: Float, n: nat): nat {
    match limit
    case NaN => AtLeastOne(1, n)
    case NegInf => 1
    case PosInf => AtLeastOne(n, n)
    case Fin(r) => AtLeastOne(if r.Floor == 0 then 1 else r.Floor, n)
  }

  /** The largest number of runners the limit allows, but at least one and never more than
      there are items. */
  lemma WorkersFitTheLimit(limit: Float, n: nat)
    requires n > 0
    ensures 1 <= Workers(limit, n) <= n
    ensures limit.Ge(Fin(1.0)) ==> limit.Ge(Fin(Workers(limit, n) as real))
    ensures limit.Ge(Fin(1.0)) && Workers(limit, n) < n ==> limit.Lt(Fin(Workers(limit, n) as real + 1.0))
    ensures !limit.Ge(Fin(1.0)) ==> Workers(limit, n) == 1
  {
    if limit.Fin? {
      assert limit.r.Floor as real <= limit.r < limit.r.Floor as real + 1.0;
    }
  }

  // --- Steps ---

  /** The head of a runner's loop: take the next item, if there is one. */
  function Turn<R>(st: State<R>, w: nat): State<R>
    requires w < |st.runners|
  {
    if st.next < st.n then
      st.(next := st.next + 1, runners := st.runners[w := Busy(st.next)], started := st.started + [st.next])
    else
      st.(runners := st.runners[w := Done])
  }

  /** The first `w` of `workers` runners have started. */
  function StartUpTo<R>(n: nat, workers: nat, w: nat): (st: State<R>)
    requires w <= workers
    ensures |st.runners| == workers
  {
    if w == 0 then State(n, 0, seq(workers, _ => Waiting), seq(n, _ => None), [])
    else Turn(StartUpTo(n, workers, w - 1), w - 1)
  }

  function Start<R>(n: nat, limit: Float): State<R> {
    if n == 0 then State(0, 0, [], [], [])
    else StartUpTo(n, Workers(limit, n), Workers(limit, n))
  }

  predicate Enabled<R>(st: State<R>, e: Event<R>) {
    e.w < |st.runners| && st.runners[e.w].Busy? && st.runners[e.w].index < |st.results|
  }

  function Step<R>(st: State<R>, e: Event<R>): State<R>
    requires Enabled(st, e)
  {
    var index := st.runners[e.w].index;
    match e
    case Resolved(w, value) => Turn(st.(results := st.results[index := Some(value)]), w)
    case Rejected(w) => st.(runners := st.runners[w := Failed(index)])
  }

  datatype Outcome<R> = Pending | Fulfilled(results: seq<Option<R>>) | Failure

  /** What the returned promise has come to: it fails with the first failing worker and is
      fulfilled when every runner has run out of items. */
  ghost function OutcomeOf<R>(st: State<R>): Outcome<R> {
    if exists w :: 0 <= w < |st.runners| && st.runners[w].Failed? then Failure
    else if forall w | 0 <= w < |st.runners| :: st.runners[w].Done? then Fulfilled(st.results)
    else Pending
  }

  function BusyCount(runners: seq<Runner>): (c: nat)
    ensures c <= |runners|
  {
    if runners == [] then 0
    else
      var last := |runners| - 1;
      BusyCount(runners[..last]) + if runners[last].Busy? then 1 else 0
  }

  // --- Invariant ---

  ghost predicate Holds(r: Runner, i: nat) {
    (r.Busy? || r.Failed?) && r.index == i
  }

  ghost predicate Held(runners: seq<Runner>, i: nat) {
    exists w :: 0 <= w < |runners| && Holds(runners[w], i)
  }

  ghost predicate FailedOn(runners: seq<Runner>, i: nat) {
    exists w :: 0 <= w < |runners| && runners[w] == Failed(i)
  }

  /** Items start in order, each once. */
  ghost predicate InOrder(next: nat, started: seq<nat>) {
    |started| == next && forall i | 0 <= i < next :: started[i] == i
  }

  /** An item is worked on by one runner, and while items remain no runner idles. */
  ghost predicate RunnersOk<R>(st: State<R>) {
    && st.next <= st.n == |st.results|
    && (forall w | 0 <= w < |st.runners| && (st.runners[w].Busy? || st.runners[w].Failed?) ::
          st.runners[w].index < st.next && st.results[st.runners[w].index].None?)
    && (forall v, w | 0 <= v < w < |st.runners| && !st.runners[v].Done? && !st.runners[w].Done? ::
          st.runners[v] != st.runners[w])
    && (forall v, w | 0 <= v < |st.runners| && 0 <= w < |st.runners| && st.runners[v].Busy? && st.runners[w].Failed? ::
          st.runners[v].index != st.runners[w].index)
    && (forall w | 0 <= w < |st.runners| :: !st.runners[w].Waiting? && (st.runners[w].Done? ==> st.next == st.n))
  }

  /** Every started item has its answer, or a runner that has it in hand or failed on it;
      no other item has a result. */
  ghost predicate ResultsOk<R>(st: State<R>, answer: nat -> R) {
    && |st.results| == st.n
    && st.next <= st.n
    && forall i | 0 <= i < st.n ::
         (st.results[i].Some? ==> i < st.next && st.results[i].value == answer(i))
         && (i < st.next && st.results[i].None? ==> Held(st.runners, i))
  }

  ghost predicate Inv<R>(st: State<R>, answer: nat -> R) {
    ResultsOk(st, answer) && RunnersOk(st) && InOrder(st.next, st.started)
  }

  function Measure<R>(st: State<R>): int {
    st.n - st.next + BusyCount(st.runners)
  }

  lemma {:induction false} BusyUpdate(runners: seq<Runner>, w: nat, r: Runner)
    requires w < |runners|
    ensures BusyCount(runners[w := r]) ==
            BusyCount(runners) - (if runners[w].Busy? then 1 else 0) + (if r.Busy? then 1 else 0)
  {
    var last := |runners| - 1;
    if w == last {
      assert runners[w := r][..last] == runners[..last];
    } else {
      BusyUpdate(runners[..last], w, r);
      assert runners[w := r][..last] == runners[..last][w := r];
    }
  }

  lemma HeldAfter(runners: seq<Runner>, w: nat, r: Runner)
    requires w < |runners|
    ensures forall i: nat | Held(runners, i) && !Holds(runners[w], i) :: Held(runners[w := r], i)
    ensures forall i: nat | Holds(r, i) :: Held(runners[w := r], i)
  {
    forall i: nat | Held(runners, i) && !Holds(runners[w], i) ensures Held(runners[w := r], i) {
      var v :| 0 <= v < |runners| && Holds(runners[v], i);
      assert Holds(runners[w := r][v], i);
    }
    assert runners[w := r][w] == r;
  }

  lemma {:induction false} StartedUpTo<R>(n: nat, workers: nat, w: nat)
    requires w <= workers <= n
    ensures var st := StartUpTo<R>(n, workers, w);
      && st.n == n && st.next == w && InOrder(w, st.started)
      && st.results == seq(n, _ => None)
      && forall v | 0 <= v < workers :: st.runners[v] == if v < w then Busy(v) else Waiting
  {
    if w > 0 {
      StartedUpTo<R>(n, workers, w - 1);
    }
  }

  lemma StartOk<R>(n: nat, limit: Float, answer: nat -> R)
    ensures Inv(Start(n, limit), answer) && Measure(Start<R>(n, limit)) == n && Start<R>(n, limit).n == n
    ensures |Start<R>(n, limit).runners| == if n == 0 then 0 else Workers(limit, n)
    ensures forall w | 0 <= w < |Start<R>(n, limit).runners| :: Start<R>(n, limit).runners[w].Busy?
  {
    if n > 0 {
      WorkersFitTheLimit(limit, n);
      StartedUpTo<R>(n, Workers(limit, n), Workers(limit, n));
      var st := Start<R>(n, limit);
      AllBusy(st.runners);
      hide StartUpTo, Workers, BusyCount;
      forall i | 0 <= i < st.next ensures Held(st.runners, i) {
        assert Holds(st.runners[i], i);
      }
    }
  }

  lemma {:induction false} AllBusy(runners: seq<Runner>)
    ensures BusyCount(runners) == |runners| <==> forall w | 0 <= w < |runners| :: runners[w].Busy?
  {
    if runners != [] {
      AllBusy(runners[..|runners| - 1]);
      assert forall w | 0 <= w < |runners| - 1 :: runners[..|runners| - 1][w] == runners[w];
    }
  }

  lemma {:induction false} NoneBusy(runners: seq<Runner>)
    ensures BusyCount(runners) == 0 <==> forall w | 0 <= w < |runners| :: !runners[w].Busy?
  {
    if runners != [] {
      NoneBusy(runners[..|runners| - 1]);
      assert forall w | 0 <= w < |runners| - 1 :: runners[..|runners| - 1][w] == runners[w];
    }
  }

  lemma RunnersKeep<R>(st: State<R>, e: Event<R>, answer: nat -> R)
    requires Inv(st, answer) && Enabled(st, e)
    ensures RunnersOk(Step(st, e)) && InOrder(Step(st, e).next, Step(st, e).started)
  {
  }

  lemma ResultsKeep<R>(st: State<R>, e: Event<R>, answer: nat -> R)
    requires Inv(st, answer) && Enabled(st, e) && (e.Resolved? ==> e.value == answer(st.runners[e.w].index))
    ensures ResultsOk(Step(st, e), answer)
  {
    HeldAfter(st.runners, e.w, Step(st, e).runners[e.w]);
    assert Step(st, e).runners == st.runners[e.w := Step(st, e).runners[e.w]];
    hide Held, RunnersOk, InOrder;
  }

  lemma StepCounts<R>(st: State<R>, e: Event<R>)
    requires Enabled(st, e)
    ensures Measure(Step(st, e)) == Measure(st) - 1
    ensures Step(st, e).n == st.n && |Step(st, e).runners| == |st.runners|
  {
    BusyUpdate(st.runners, e.w, Step(st, e).runners[e.w]);
    assert Step(st, e).runners == st.runners[e.w := Step(st, e).runners[e.w]];
  }

  // --- Whole runs ---

  ghost predicate IsRun<R>(n: nat, limit: Float, answer: nat -> R, states: seq<State<R>>, events: seq<Event<R>>) {
    && |states| == |events| + 1
    && states[0] == Start(n, limit)
    && forall k | 0 <= k < |events| ::
         && Enabled(states[k], events[k])
         && (events[k].Resolved? ==> events[k].value == answer(states[k].runners[events[k].w].index))
         && states[k + 1] == Step(states[k], events[k])
  }

  /** In every schedule, items start in order and exactly once, each result is the worker's
      answer for its own item, and each settled promise uses up exactly one unit of the
      measure, so no run is longer than there are items. */
  lemma {:induction false} RunKeeps<R>(
    n: nat, limit: Float, answer: nat -> R, states: seq<State<R>>, events: seq<Event<R>>, k: nat)
    requires IsRun(n, limit, answer, states, events) && k < |states|
    ensures Inv(states[k], answer) && Measure(states[k]) == n - k
    ensures states[k].n == n && |states[k].runners| == if n == 0 then 0 else Workers(limit, n)
  {
    if k == 0 {
      StartOk(n, limit, answer);
    } else {
      RunKeeps(n, limit, answer, states, events, k - 1);
      RunnersKeep(states[k - 1], events[k - 1], answer);
      ResultsKeep(states[k - 1], events[k - 1], answer);
      StepCounts(states[k - 1], events[k - 1]);
      hide RunnersOk, ResultsOk, InOrder, Measure, BusyCount, Start, Workers;
    }
  }

  /** At most the allowed number of workers run at once and, as long as none failed, exactly
      that many while items remain to be started. */
  lemma BoundedAndBusy<R>(
    n: nat, limit: Float, answer: nat -> R, states: seq<State<R>>, events: seq<Event<R>>, k: nat)
    requires IsRun(n, limit, answer, states, events) && k < |states| && n > 0
    ensures BusyCount(states[k].runners) <= Workers(limit, n)
    ensures states[k].next < n && OutcomeOf(states[k]) != Failure ==> BusyCount(states[k].runners) == Workers(limit, n)
  {
    RunKeeps(n, limit, answer, states, events, k);
    AllBusy(states[k].runners);
  }

  lemma AllDone<R>(st: State<R>, answer: nat -> R, i: nat)
    requires Inv(st, answer) && i < st.n && OutcomeOf(st).Fulfilled? && |st.runners| > 0
    ensures st.next == st.n && st.results[i] == Some(answer(i))
  {
    assert st.runners[0].Done?;
    assert !Held(st.runners, i);
  }

  lemma DoneOrFailed<R>(st: State<R>, answer: nat -> R)
    requires Inv(st, answer) && Measure(st) == 0 && OutcomeOf(st) != Failure
    ensures OutcomeOf(st).Fulfilled?
  {
    NoneBusy(st.runners);
    forall w | 0 <= w < |st.runners| ensures st.runners[w].Done? {
      assert !st.runners[w].Failed?;
    }
  }

  /** The promise is fulfilled exactly when `n` workers have answered and none has failed,
      and then with every item's answer in the item's place. */
  lemma FulfilledWithAllAnswers<R>(
    n: nat, limit: Float, answer: nat -> R, states: seq<State<R>>, events: seq<Event<R>>, k: nat)
    requires IsRun(n, limit, answer, states, events) && k < |states|
    ensures OutcomeOf(states[k]).Fulfilled? <==> k == n && OutcomeOf(states[k]) != Failure
    ensures OutcomeOf(states[k]).Fulfilled? ==>
      && |OutcomeOf(states[k]).results| == n
      && forall i | 0 <= i < n :: OutcomeOf(states[k]).results[i] == Some(answer(i))
  {
    hide IsRun, OutcomeOf, Inv, Measure, Start, Step;
    HasRunners(n, limit, answer, states, events, k);
    OutcomeIs(states[k], answer, n - k);
  }

  lemma HasRunners<R>(
    n: nat, limit: Float, answer: nat -> R, states: seq<State<R>>, events: seq<Event<R>>, k: nat)
    requires IsRun(n, limit, answer, states, events) && k < |states|
    ensures Inv(states[k], answer) && Measure(states[k]) == n - k && states[k].n == n && (n > 0 ==> |states[k].runners| > 0)
  {
    hide IsRun, Inv, Measure;
    RunKeeps(n, limit, answer, states, events, k);
    if n > 0 {
      WorkersFitTheLimit(limit, n);
    }
  }

  lemma OutcomeIs<R>(st: State<R>, answer: nat -> R, left: int)
    requires Inv(st, answer) && Measure(st) == left && (st.n > 0 ==> |st.runners| > 0)
    ensures OutcomeOf(st).Fulfilled? <==> left == 0 && OutcomeOf(st) != Failure
    ensures OutcomeOf(st).Fulfilled? ==>
      |OutcomeOf(st).results| == st.n && forall i | 0 <= i < st.n :: OutcomeOf(st).results[i] == Some(answer(i))
  {
    if OutcomeOf(st).Fulfilled? {
      FulfilledIs(st, answer);
      hide *;
      forall i: nat | i < st.n ensures st.results[i] == Some(answer(i)) && st.next == st.n {
        AllDone(st, answer, i);
      }
    } else if left == 0 && OutcomeOf(st) != Failure {
      hide *;
      DoneOrFailed(st, answer);
    }
  }

  lemma FulfilledIs<R>(st: State<R>, answer: nat -> R)
    requires Inv(st, answer) && OutcomeOf(st).Fulfilled? && (st.n > 0 ==> |st.runners| > 0)
    ensures OutcomeOf(st).results == st.results && |st.results| == st.n && BusyCount(st.runners) == 0
    ensures Measure(st) == st.n - st.next && (st.n > 0 ==> st.next == st.n) && st.next <= st.n
  {
    NoneBusy(st.runners);
    hide BusyCount;
    if st.n > 0 {
      assert st.runners[0].Done?;
    }
  }

  /** A failure does not stop the other runners: when nothing is left in flight, every item
      was started unless every single runner has failed. */
  lemma FailuresDoNotStopOthers<R>(
    n: nat, limit: Float, answer: nat -> R, states: seq<State<R>>, events: seq<Event<R>>, k: nat)
    requires IsRun(n, limit, answer, states, events) && k < |states| && BusyCount(states[k].runners) == 0
    ensures states[k].next < n ==> forall w | 0 <= w < |states[k].runners| :: states[k].runners[w].Failed?
    ensures |states[k].results| == n && states[k].next <= n
    ensures forall i | 0 <= i < states[k].next :: states[k].results[i] == Some(answer(i)) || FailedOn(states[k].runners, i)
  {
    RunKeeps(n, limit, answer, states, events, k);
    hide IsRun, Workers, BusyCount, InOrder, Measure, Inv, FailedOn;
    NothingInFlight(states[k], answer);
  }

  lemma NothingInFlight<R>(st: State<R>, answer: nat -> R)
    requires Inv(st, answer) && BusyCount(st.runners) == 0
    ensures st.next < st.n ==> forall w | 0 <= w < |st.runners| :: st.runners[w].Failed?
    ensures |st.results| == st.n && st.next <= st.n
    ensures forall i | 0 <= i < st.next :: st.results[i] == Some(answer(i)) || FailedOn(st.runners, i)
  {
    NoneBusy(st.runners);
    hide BusyCount, InOrder;
    forall i | 0 <= i < st.next && st.results[i].None? ensures FailedOn(st.runners, i) {
      assert Held(st.runners, i);
      var w :| 0 <= w < |st.runners| && Holds(st.runners[w], i);
      assert st.runners[w] == Failed(i);
    }
  }
}

/** The mapper as the object its runners share. */
module ConcurrencyPool {
  import opened Wrappers
  import opened Floats
  import Spec = Concurrency

  class Pool<R> {
    const count: nat
    const results: array<Option<R>>
    var next: nat
    var runners: seq<Spec.Runner>
    ghost var started: seq<nat>

    ghost function View(): Spec.State<R>
      reads this, results
    {
      Spec.State(count, next, runners, results[..], started)
    }

    /** Creating the runners runs each up to its first wait. */
    constructor (n: nat, limit: Float)
      ensures View() == Spec.Start(n, limit) && fresh(results)
    {
      count := n;
      results := new Option<R>[n](_ => None);
      next := 0;
      var workers := if n == 0 then 0 else Spec.Workers(limit, n);
      runners := seq(workers, _ => Spec.Waiting);
      started := [];
      new;
      assert results[..] == seq(n, _ => None);
      for w := 0 to workers
        invariant |runners| == workers
        invariant View() == if n == 0 then Spec.State(0, 0, [], [], []) else Spec.StartUpTo(n, workers, w)
      {
        Turn(w);
      }
    }

    method Turn(w: nat)
      requires w < |runners|
      modifies this
      ensures View() == Spec.Turn(old(View()), w)
    {
      if next < count {
        var index := next;
        next := next + 1;
        runners := runners[w := Spec.Busy(index)];
        started := started + [index];
      } else {
        runners := runners[w := Spec.Done];
      }
    }

    /** The worker's promise for the item runner `w` holds was fulfilled. */
    method OnResolved(w: nat, value: R)
      requires Spec.Enabled(View(), Spec.Resolved(w, value))
      modifies this, results
      ensures View() == Spec.Step(old(View()), Spec.Resolved(w, value))
    {
      var index := runners[w].index;
      results[index] := Some(value);
      assert results[..] == old(results[..])[index := Some(value)];
      Turn(w);
    }

    method OnRejected(w: nat)
      requires Spec.Enabled(View(), Spec.Rejected(w))
      modifies this
      ensures View() == Spec.Step(old(View()), Spec.Rejected(w))
    {
      runners := runners[w := Spec.Failed(runners[w].index)];
    }
  }
}
