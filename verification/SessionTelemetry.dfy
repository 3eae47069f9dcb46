/** The telemetry the session store holds (`src/stores/sessionStore.ts`), over whole runs.
    Payloads are stored as they come (`src/App.tsx`), whether or not their session is still
    connected. */
module SessionTelemetry {
  import opened Wrappers
  import opened Sessions
  import opened SessionRaces

  predicate Sends(e: Event, s: Id) {
    e.Telemetry? && e.s == s
  }

  predicate Connects(e: Event, s: Id) {
    (e.ConnectShown? || e.ConnectFocused? || e.Reconnected?) && e.s == s
  }

  /** The event ends the session: a disconnect, a deletion, or the last of its panes. */
  predicate EndsSession(st: State, e: Event, s: Id) {
    || (e.DisconnectAnswered? && e.s == s)
    || (e.ProfileDeleted? && e.s == s && s in st.connected)
    || (e.SplitClosed? && e.s == s && Without(PanesOf(st, s), e.t) == [])
    || (e.Closed? && e.s == s && e.t in PanesOf(st, s) && Without(PanesOf(st, s), e.t) == [])
  }

  lemma RemovedPart(st: State, s': Id, t: TerminalId, s: Id)
    ensures var next := RemoveTerminalPane(st, s', t);
      var ended := s' == s && Without(PanesOf(st, s), t) == [];
      && TelemetryOf(next, s) == (if ended then None else TelemetryOf(st, s))
      && (s in next.connected <==> s in st.connected && !ended)
  {
    WithoutHas(st.connected, s');
    hide Without;
  }

  lemma EndedPart(st: State, s': Id, s: Id)
    ensures var next := DisconnectDone(st, s');
      && TelemetryOf(next, s) == (if s' == s then None else TelemetryOf(st, s))
      && (s in next.connected <==> s in st.connected && s' != s)
  {
    WithoutHas(st.connected, s');
    hide Without, Fallback;
  }

  ghost predicate StepIs(st: State, next: State, e: Event, s: Id) {
    && TelemetryOf(next, s) == (if Sends(e, s) then e.payload else if EndsSession(st, e, s) then None else TelemetryOf(st, s))
    && (s in next.connected <==> Connects(e, s) || (s in st.connected && !EndsSession(st, e, s)))
  }

  lemma EndingStep(st: State, e: Event, s: Id)
    requires e.SplitClosed? || e.Closed? || e.DisconnectAnswered? || e.ProfileDeleted?
    ensures StepIs(st, Step(st, e), e, s)
  {
    hide Without, Fallback, RemoveTerminalPane, TerminalClosed, DisconnectDone;
    match e
    case SplitClosed(s', t, _, _) => RemovedPart(st, s', t, s);
    case Closed(s', t, closed, connectionLost) =>
      RemovedPart(st, s', t, s);
      ClosedIsRemoval(st, s', t, closed, connectionLost);
    case DisconnectAnswered(s') => EndedPart(st, s', s);
    case ProfileDeleted(s') => EndedPart(ClearSessionLost(st, s'), s', s);
  }

  /** What one event does to a session's telemetry, and to its being connected. */
  lemma TelemetryStep(st: State, e: Event, s: Id)
    ensures StepIs(st, Step(st, e), e, s)
  {
    if e.SplitClosed? || e.Closed? || e.DisconnectAnswered? || e.ProfileDeleted? {
      EndingStep(st, e, s);
    } else {
      hide RemoveTerminalPane, TerminalClosed, DisconnectDone, Deleted, PanesOf;
    }
  }

  // --- What is held ---

  /** Event `i` sent `payload` for `s`; nothing was sent since, and the session has not ended. */
  ghost predicate HeldSince(states: seq<State>, events: seq<Event>, s: Id, payload: int, i: nat, n: nat)
    requires n <= |events| && n <= |states|
  {
    && i < n && Sends(events[i], s) && events[i].payload == Some(payload)
    && forall j | i < j < n :: !Sends(events[j], s) && !EndsSession(states[j], events[j], s)
  }

  /** After every run a session's telemetry is the last it was sent, unless that was nothing
      or the session has ended since. */
  lemma {:induction false} TelemetryIsHistory(
    states: seq<State>, used: seq<set<TerminalId>>, events: seq<Event>, n: nat, s: Id, payload: int)
    requires IsRun(states, used, events) && n <= |events|
    ensures TelemetryOf(states[n], s) == Some(payload) <==> exists i: nat :: HeldSince(states, events, s, payload, i, n)
  {
    if n > 0 {
      var m := n - 1;
      TelemetryIsHistory(states, used, events, m, s, payload);
      TelemetryStep(states[m], events[m], s);
      hide Step, EndsSession;
      if Sends(events[m], s) && events[m].payload == Some(payload) {
        assert HeldSince(states, events, s, payload, m, n);
      }
      if i: nat :| HeldSince(states, events, s, payload, i, m) {
        assert !Sends(events[m], s) && !EndsSession(states[m], events[m], s) ==> HeldSince(states, events, s, payload, i, n);
      }
      if i: nat :| HeldSince(states, events, s, payload, i, n) {
        assert i < m ==> HeldSince(states, events, s, payload, i, m);
      }
    }
  }

  // --- When it outlives the connection ---

  /** Event `i` sent a payload for `s` when it was not connected; since then nothing was sent,
      and the session has neither ended again nor been connected. */
  ghost predicate StraySince(states: seq<State>, events: seq<Event>, s: Id, i: nat, n: nat)
    requires n <= |events| && n <= |states|
  {
    && i < n && Sends(events[i], s) && events[i].payload.Some? && s !in states[i].connected
    && forall j | i < j < n ::
         !Sends(events[j], s) && !EndsSession(states[j], events[j], s) && !Connects(events[j], s)
  }

  /** Telemetry is held for a session that is not connected exactly if it came late, after
      the session had ended, and nothing has happened to the session since. */
  lemma {:induction false} TelemetryOutlivesConnection(
    states: seq<State>, used: seq<set<TerminalId>>, events: seq<Event>, n: nat, s: Id)
    requires IsRun(states, used, events) && n <= |events|
    ensures TelemetryOf(states[n], s).Some? && s !in states[n].connected <==> exists i: nat :: StraySince(states, events, s, i, n)
  {
    if n > 0 {
      var m := n - 1;
      TelemetryOutlivesConnection(states, used, events, m, s);
      TelemetryStep(states[m], events[m], s);
      hide Step, EndsSession;
      if Sends(events[m], s) && events[m].payload.Some? && s !in states[m].connected {
        assert StraySince(states, events, s, m, n);
      }
      if i: nat :| StraySince(states, events, s, i, m) {
        assert !Sends(events[m], s) && !EndsSession(states[m], events[m], s) && !Connects(events[m], s)
          ==> StraySince(states, events, s, i, n);
      }
      if i: nat :| StraySince(states, events, s, i, n) {
        assert i < m ==> StraySince(states, events, s, i, m);
      }
    }
  }

  /** The last payload of a connection arrives after the event of its end: it is held for a
      session that is not connected, and taken for the next connection's until that sends one. */
  lemma LateTelemetryStays(A: Id, a: TerminalId, b: TerminalId, payload: int)
    ensures var before := [ConnectShown(A, a), Closed(A, a, true, false), Telemetry(A, Some(payload))];
      && TelemetryOf(After(before), A) == Some(payload) && A !in After(before).connected
      && TelemetryOf(After(before + [ConnectShown(A, b)]), A) == Some(payload)
      && PanesOf(After(before + [ConnectShown(A, b)]), A) == [b]
  {
    var e0, e1, e2, e3 := ConnectShown(A, a), Closed(A, a, true, false), Telemetry(A, Some(payload)), ConnectShown(A, b);
    assert After([]) == START;
    Opening(A, a, b);
    ClosesDown(A, a);
    var two, three := State(None, 2, [], map[], map[], []), State(None, 2, [], map[], map[A := payload], []);
    TakenOver(A, b, payload);
    hide After, Step;
    AfterSnoc([], e0, [e0]);
    AfterSnoc([e0], e1, [e0, e1]);
    AfterSnoc([e0, e1], e2, [e0, e1, e2]);
    AfterSnoc([e0, e1, e2], e3, [e0, e1, e2] + [e3]);
  }

  lemma TakenOver(A: Id, b: TerminalId, payload: int)
    ensures var two, three := State(None, 2, [], map[], map[], []), State(None, 2, [], map[], map[A := payload], []);
      && Step(two, Telemetry(A, Some(payload))) == three
      && TelemetryOf(Step(three, ConnectShown(A, b)), A) == Some(payload) && PanesOf(Step(three, ConnectShown(A, b)), A) == [b]
  {
  }
}
