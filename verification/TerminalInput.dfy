/** The input queue of a terminal pane (`src/components/TerminalPane.tsx`): what is typed
    is sent to the backend one write at a time, in order, while the pane is writable. */
module TerminalInput {
  import opened Wrappers

  /** `queue`, `writing` and `writable` are the entry's own fields; `inFlight` is the text
      of the write the loop is waiting for. `typed` is all the text the entry accepted
      and `delivered` all that reached the backend. */
  datatype State = State(
    queue: string, writing: bool, writable: bool, inFlight: Option<string>, typed: string, delivered: string)

  const START := State("", false, true, None, "", "")

  datatype Event =
    | Typed(data: string)
    | Inserted(data: string)          // a saved snippet, or the form feed of "clear"
    | Written                         // the pending write succeeded
    | WriteFailed(reached: nat)       // it failed after `reached` characters got through
    | Closed                          // the terminal closed, or its pane is gone
    | Unmounted

  /** The head of the loop: send everything queued, or leave. */
  function Advance(st: State): State {
    if st.writable && st.queue != "" then st.(inFlight := Some(st.queue), queue := "")
    else st.(inFlight := None, writing := false)
  }

  function Flush(st: State): State {
    if st.writing || !st.writable then st else Advance(st.(writing := true))
  }

  function Accept(st: State, data: string): State {
    st.(queue := st.queue + data, typed := st.typed + data)
  }

  function Pending(st: State): string {
    if st.inFlight.Some? then st.inFlight.value else ""
  }

  function Step(st: State, e: Event): State {
    match e
    case Typed(data) => Flush(Accept(st, data))
    case Inserted(data) => if st.writable then Flush(Accept(st, data)) else st
    case Written => Advance(st.(delivered := st.delivered + Pending(st)))
    case WriteFailed(reached) =>
      var through := if reached <= |Pending(st)| then Pending(st)[..reached] else Pending(st);
      Advance(st.(delivered := st.delivered + through, writable := false, queue := ""))
    case Closed => st.(writable := false, queue := "")
    case Unmounted => st.(writable := false)
  }

  /** A write is answered only while one is pending. */
  predicate Enabled(st: State, e: Event) {
    e.Written? || e.WriteFailed? ==> st.inFlight.Some?
  }

  // --- Invariant ---

  ghost predicate Inv(st: State) {
    && (st.writing <==> st.inFlight.Some?)
    && (st.inFlight.Some? ==> st.inFlight.value != "")
    && (st.writable && st.queue != "" ==> st.writing)
    && (st.writable ==> st.typed == st.delivered + Pending(st) + st.queue)
    && st.delivered + Pending(st) <= st.typed
  }

  lemma PrefixTrans(a: string, b: string, c: string)
    requires a <= b && b <= c
    ensures a <= c
  {
  }

  lemma StepKeeps(st: State, e: Event)
    requires Inv(st) && Enabled(st, e)
    ensures Inv(Step(st, e))
  {
    var next := Step(st, e);
    match e
    case Typed(data) => AcceptKeeps(st, data);
    case Inserted(data) => AcceptKeeps(st, data);
    case Written =>
      assert next.delivered + Pending(next) <= next.typed;
    case WriteFailed(reached) =>
      assert next.delivered + Pending(next) == next.delivered;
      assert next.delivered <= st.delivered + Pending(st);
    case _ =>
  }

  lemma AcceptKeeps(st: State, data: string)
    requires Inv(st)
    ensures Inv(Flush(Accept(st, data)))
  {
    var next := Flush(Accept(st, data));
    assert st.writable ==> next.typed == (st.delivered + Pending(st)) + (st.queue + data);
    assert next.delivered + Pending(next) <= next.typed;
  }

  // --- Whole runs ---

  ghost predicate IsRun(states: seq<State>, events: seq<Event>) {
    && |states| == |events| + 1
    && states[0] == START
    && forall i | 0 <= i < |events| :: Enabled(states[i], events[i]) && states[i + 1] == Step(states[i], events[i])
  }

  /** While the pane is writable nothing typed is lost, repeated or reordered, and text
      never waits without a writer. At most one write is pending, and what was delivered
      is always a prefix of what was typed. */
  lemma {:induction false} RunKeeps(states: seq<State>, events: seq<Event>, n: nat)
    requires IsRun(states, events) && n < |states|
    ensures Inv(states[n])
    ensures var st := states[n];
      && (st.writable ==> st.typed == st.delivered + Pending(st) + st.queue)
      && (st.writable && st.queue != "" ==> st.writing && st.inFlight.Some?)
      && st.delivered <= st.delivered + Pending(st) <= st.typed
  {
    if n > 0 {
      RunKeeps(states, events, n - 1);
      StepKeeps(states[n - 1], events[n - 1]);
    }
  }

  lemma StepTakes(st: State, e: Event)
    requires Inv(st) && Enabled(st, e)
    ensures st.typed <= Step(st, e).typed && st.delivered <= Step(st, e).delivered
    ensures Step(st, e).writable ==> st.writable
    ensures !st.writable ==>
      && Step(st, e).delivered + Pending(Step(st, e)) <= st.delivered + Pending(st)
      && !Step(st, e).writable
    ensures Step(st, e).writable ==> st.delivered + Pending(st) <= Step(st, e).delivered + Pending(Step(st, e))
  {
    var next := Step(st, e);
    match e
    case WriteFailed(reached) => assert next.delivered + Pending(next) <= st.delivered + Pending(st);
    case Written =>
      assert next.delivered == st.delivered + Pending(st);
      assert next.delivered + Pending(next) == next.delivered || next.writable;
    case Typed(data) => assert next.delivered == st.delivered && (st.inFlight.Some? ==> Pending(next) == Pending(st));
    case Inserted(data) => assert next.delivered == st.delivered && (st.inFlight.Some? ==> Pending(next) == Pending(st));
    case _ =>
  }

  /** Once the pane is closed, nothing more is ever sent: all that can still arrive is the
      write that was pending, however much is typed afterwards. */
  lemma {:induction false} ClosedSendsNothing(states: seq<State>, events: seq<Event>, m: nat, n: nat)
    requires IsRun(states, events) && m <= n < |states| && !states[m].writable
    ensures !states[n].writable
    ensures states[n].delivered + Pending(states[n]) <= states[m].delivered + Pending(states[m]) <= states[m].typed
  {
    RunKeeps(states, events, m);
    if m < n {
      ClosedSendsNothing(states, events, m, n - 1);
      RunKeeps(states, events, n - 1);
      StepTakes(states[n - 1], events[n - 1]);
      hide Step, Inv, Pending;
    }
  }

  /** A pane that closes, is unmounted or fails a write is writable no more; but for an unmounted
      one its queue is dropped. A snippet that finds its pane closed leaves nothing behind. */
  lemma ClosingDrops(st: State, e: Event)
    requires Enabled(st, e)
    ensures e.Closed? || e.WriteFailed? || e.Unmounted? ==> !Step(st, e).writable
    ensures e.Closed? || e.WriteFailed? ==> Step(st, e).queue == "" && Step(st, e).typed == st.typed
    ensures e.Inserted? && !st.writable ==> Step(st, e) == st
    ensures e.Inserted? && st.writable ==> Step(st, e).typed == st.typed + e.data
    ensures e.Typed? ==> Step(st, e).typed == st.typed + e.data
  {
  }

  /** The counters of a run only grow. */
  lemma {:induction false} RunGrows(states: seq<State>, events: seq<Event>, m: nat, n: nat)
    requires IsRun(states, events) && m <= n < |states|
    ensures states[m].typed <= states[n].typed && states[m].delivered <= states[n].delivered
    ensures states[n].writable ==> states[m].writable
    ensures states[n].writable ==> states[m].delivered + Pending(states[m]) <= states[n].delivered + Pending(states[n])
  {
    if m < n {
      RunGrows(states, events, m, n - 1);
      RunKeeps(states, events, n - 1);
      StepTakes(states[n - 1], events[n - 1]);
      hide Step, Inv, Pending;
    }
  }

  /** An answered write takes the whole queue with the next one. */
  lemma AnswerSendsTheQueue(st: State)
    requires Inv(st) && st.writable && st.inFlight.Some?
    ensures var next := Step(st, Written);
      next.queue == "" && next.delivered + Pending(next) == st.typed
  {
    assert st.delivered + Pending(st) + st.queue == (st.delivered + Pending(st)) + st.queue;
  }

  /** Everything typed before one write is answered has been delivered once the next one
      is, if the pane stays writable: no text waits for more than two answers. */
  lemma TwoAnswersDeliver(states: seq<State>, events: seq<Event>, i: nat, j: nat, k: nat)
    requires IsRun(states, events) && i <= j < k < |events|
    requires events[j] == Written && events[k] == Written && states[k + 1].writable
    ensures states[i].typed <= states[k + 1].delivered
  {
    var j', k' := j + 1, k + 1;
    RunGrows(states, events, i, j);
    RunGrows(states, events, j', k);
    RunGrows(states, events, j, k');
    RunGrows(states, events, k, k');
    RunKeeps(states, events, j);
    AnswerSendsTheQueue(states[j]);
    assert states[k'].delivered == states[k].delivered + Pending(states[k]);
    hide Inv, Step, Flush, Accept, Advance;
    PrefixTrans(states[i].typed, states[j].typed, states[k'].delivered);
  }

  /** With no write pending a writable pane has delivered everything. */
  lemma IdleIsDelivered(states: seq<State>, events: seq<Event>, n: nat)
    requires IsRun(states, events) && n < |states| && states[n].writable && !states[n].writing
    ensures states[n].delivered == states[n].typed
  {
    RunKeeps(states, events, n);
  }
}

/** The same queue as the object the component updates. The loop of `flushInput` is split
    where it waits for the backend. */
module TerminalEntry {
  import opened Wrappers
  import Spec = TerminalInput

  class TermEntry {
    var inputQueue: string
    var writing: bool
    var writable: bool
    var inFlight: Option<string>
    ghost var typed: string
    ghost var delivered: string

    ghost function View(): Spec.State
      reads this
    {
      Spec.State(inputQueue, writing, writable, inFlight, typed, delivered)
    }

    constructor ()
      ensures View() == Spec.START
    {
      inputQueue, writing, writable, inFlight, typed, delivered := "", false, true, None, "", "";
    }

    /** One turn of the loop, and its `finally` block. The check there for text left over
        can never hold, for the loop leaves only when it does not. */
    method Loop()
      requires writing
      modifies this
      ensures View() == Spec.Advance(old(View()))
    {
      if writable && |inputQueue| > 0 {
        var data := inputQueue;
        inputQueue := "";
        inFlight := Some(data);
      } else {
        inFlight := None;
        writing := false;
        if writable && |inputQueue| > 0 {
          assert false;
        }
      }
    }

    method FlushInput()
      modifies this
      ensures View() == Spec.Flush(old(View()))
    {
      if writing || !writable {
        return;
      }
      writing := true;
      Loop();
    }

    method OnData(data: string)
      modifies this
      ensures View() == Spec.Step(old(View()), Spec.Typed(data))
    {
      inputQueue := inputQueue + data;
      typed := typed + data;
      FlushInput();
    }

    method SendSnippet(payload: string) returns (accepted: bool)
      modifies this
      ensures accepted == old(writable)
      ensures View() == Spec.Step(old(View()), Spec.Inserted(payload))
    {
      if !writable {
        return false;
      }
      inputQueue := inputQueue + payload;
      typed := typed + payload;
      FlushInput();
      return true;
    }

    method OnWritten()
      requires writing && inFlight.Some?
      modifies this
      ensures View() == Spec.Step(old(View()), Spec.Written)
    {
      delivered := delivered + inFlight.value;
      Loop();
    }

    method OnWriteFailed(ghost reached: nat)
      requires writing && inFlight.Some?
      modifies this
      ensures View() == Spec.Step(old(View()), Spec.WriteFailed(reached))
    {
      delivered := delivered + if reached <= |inFlight.value| then inFlight.value[..reached] else inFlight.value;
      writable := false;
      inputQueue := "";
      Loop();
    }

    method OnTerminalClosed()
      modifies this
      ensures View() == Spec.Step(old(View()), Spec.Closed)
    {
      writable := false;
      inputQueue := "";
    }

    method OnUnmount()
      modifies this
      ensures View() == Spec.Step(old(View()), Spec.Unmounted)
    {
      writable := false;
    }
  }
}
