/** What happens to the session store when a handler acts on what it knew before it waited:
    splits and disconnects answered late (`src/components/TerminalPane.tsx`,
    `src/hooks/useDisconnectSession.ts`). */
module SessionRaces {
  import opened Wrappers
  import opened Sessions

  // --- Splits ---

  /** `openSplitSourcePane` checks that the session is connected before it waits for the
      backend and not after; adding the pane keeps the invariant exactly when it still is. */
  lemma SplitNeedsItsConnection(st: State, s: Id, t: TerminalId, seen: Option<Id>)
    requires Inv(st)
    ensures Inv(Step(st, SplitOpened(s, t, seen))) <==> s in st.connected
  {
    SplitOpenedKeeps(st, s, t, seen);
  }

  /** The connection drops while the split waits: the pane is added for a session that is not
      connected, which becomes the active one again. */
  lemma SplitOpensOnLostSession(A: Id, a: TerminalId, b: TerminalId)
    ensures var before := [ConnectShown(A, a), Closed(A, a, true, true)];
      var after := After(before + [SplitOpened(A, b, Some(A))]);
      && Inv(After(before)) && PanesOf(after, A) == [b] && A !in after.connected
      && (var shown := After(before + [SplitOpened(A, b, None)]); shown.active == Some(A) && A !in shown.connected)
  {
    var e0, e1 := ConnectShown(A, a), Closed(A, a, true, true);
    assert After([]) == START;
    var one := State(Some(A), 1, [A], map[A := [a]], map[], []);
    var two := State(None, 2, [], map[], map[], [A]);
    Opening(A, a, b);
    LosesIts(A, a);
    assert Inv(two) && Step(two, SplitOpened(A, b, Some(A))).connected == [] && PanesOf(Step(two, SplitOpened(A, b, Some(A))), A) == [b];
    assert Step(two, SplitOpened(A, b, None)).connected == [] && Step(two, SplitOpened(A, b, None)).active == Some(A);
    hide After, Step, Inv;
    AfterSnoc([], e0, [e0]);
    AfterSnoc([e0], e1, [e0, e1]);
    AfterSnoc([e0, e1], SplitOpened(A, b, Some(A)), [e0, e1] + [SplitOpened(A, b, Some(A))]);
    AfterSnoc([e0, e1], SplitOpened(A, b, None), [e0, e1] + [SplitOpened(A, b, None)]);
  }

  lemma LosesIts(A: Id, a: TerminalId)
    ensures Step(State(Some(A), 1, [A], map[A := [a]], map[], []), Closed(A, a, true, true)) == State(None, 2, [], map[], map[], [A])
  {
    assert Without([a], a) == [] && Without([A], A) == [] by {
      assert [a][..0] == [] && [A][..0] == [];
    }
    hide Without;
    assert map[A := [a]] - {A} == map[];
  }

  /** `closeSplit` picks the pane to focus before it waits. If that makes another session
      active, the invariant is kept exactly when that session is still connected and has
      not just lost its last pane; if nothing is made active, exactly when the session that
      was active has not. */
  lemma ClosedSplitNeedsItsFocus(st: State, s: Id, t: TerminalId, focus: Option<Id>, seen: Option<Id>)
    requires Inv(st)
    ensures var after := if focus.None? || focus == seen then st.active else focus;
      Inv(Step(st, SplitClosed(s, t, focus, seen))) <==>
        after.None? || (after.value in st.connected && !(after.value == s && PanesOf(st, s) == [t]))
  {
    SplitClosedKeeps(st, s, t, focus, seen);
    hide Step;
  }

  function After(events: seq<Event>): State {
    if events == [] then START else Step(After(events[..|events| - 1]), events[|events| - 1])
  }

  lemma AfterSnoc(events: seq<Event>, e: Event, longer: seq<Event>)
    requires longer == events + [e]
    ensures After(longer) == Step(After(events), e)
  {
    assert longer[..|events|] == events;
  }

  lemma WithoutSome(x: string, y: string)
    requires x != y
    ensures Without([x], x) == [] && Without([x], y) == [x]
    ensures Without([x, y], y) == [x] && Without([x, y], x) == [y]
  {
    assert [x][..0] == [] && [x, y][..1] == [x] && [y][..0] == [];
  }

  /** The panes `a` of session `A` and `b` of session `B` share a layout; `B`'s was added last. */
  lemma TwoPanes(A: Id, a: TerminalId, B: Id, b: TerminalId)
    requires A != B
    ensures After([ConnectFocused(A, a, None), ConnectFocused(B, b, Some(A))])
         == State(Some(B), 0, [A, B], map[A := [a], B := [b]], map[], [])
  {
    var e0, e1 := ConnectFocused(A, a, None), ConnectFocused(B, b, Some(A));
    assert After([]) == START;
    hide After;
    AfterSnoc([], e0, [e0]);
    AfterSnoc([e0], e1, [e0, e1]);
    assert Step(START, e0) == State(Some(A), 0, [A], map[A := [a]], map[], []);
    assert [A] + [B] == [A, B];
    assert map[A := [a]][B := [b]] == map[A := [a], B := [b]];
  }

  lemma Drops(A: Id, a: TerminalId, B: Id, b: TerminalId)
    requires A != B
    ensures Step(State(Some(A), 0, [A, B], map[A := [a], B := [b]], map[], []), Closed(B, b, true, true))
         == State(Some(A), 0, [A], map[A := [a]], map[], [B])
  {
    WithoutSome(A, B);
    assert Without([b], b) == [] by {
      assert [b][..0] == [];
    }
    hide Without;
    assert map[A := [a], B := [b]] - {B} == map[A := [a]];
  }

  /** While the close of `a` waits, with `A` active, `B`'s connection drops; then `B` is made
      the active session. */
  lemma ClosedSplitShowsLostSession(A: Id, a: TerminalId, B: Id, b: TerminalId)
    requires A != B
    ensures var before := [ConnectFocused(A, a, None), ConnectFocused(B, b, Some(A)), Focused(A, Some(B)), Closed(B, b, true, true)];
      var after := After(before + [SplitClosed(A, a, Some(B), Some(A))]);
      Inv(After(before)) && after.active == Some(B) && B !in after.connected
  {
    var shared := [ConnectFocused(A, a, None), ConnectFocused(B, b, Some(A)), Focused(A, Some(B))];
    var before := shared + [Closed(B, b, true, true)];
    assert before == [ConnectFocused(A, a, None), ConnectFocused(B, b, Some(A)), Focused(A, Some(B)), Closed(B, b, true, true)];
    Refocuses(A, a, B, b);
    hide After, Step, Inv;
    AfterSnoc(shared, Closed(B, b, true, true), before);
    Drops(A, a, B, b);
    AfterSnoc(before, SplitClosed(A, a, Some(B), Some(A)), before + [SplitClosed(A, a, Some(B), Some(A))]);
    LostFocus(A, a, B);
  }

  lemma LostFocus(A: Id, a: TerminalId, B: Id)
    requires A != B
    ensures var st := State(Some(A), 0, [A], map[A := [a]], map[], [B]);
      var next := Step(st, SplitClosed(A, a, Some(B), Some(A)));
      Inv(st) && next.active == Some(B) && B !in next.connected
  {
    var st := State(Some(A), 0, [A], map[A := [a]], map[], [B]);
    RemovePaneKeeps(st, A, a);
    WithoutHas(st.connected, A);
    hide RemoveTerminalPane, Without;
  }

  lemma Refocuses(A: Id, a: TerminalId, B: Id, b: TerminalId)
    requires A != B
    ensures After([ConnectFocused(A, a, None), ConnectFocused(B, b, Some(A)), Focused(A, Some(B))])
         == State(Some(A), 0, [A, B], map[A := [a], B := [b]], map[], [])
  {
    var e0, e1, e2 := ConnectFocused(A, a, None), ConnectFocused(B, b, Some(A)), Focused(A, Some(B));
    TwoPanes(A, a, B, b);
    hide After;
    AfterSnoc([e0, e1], e2, [e0, e1, e2]);
  }

  /** Or `B` is active when the close of `a` starts and `A` is focused while it waits: the
      handler sees nothing to change, and `A` stays active without a connection. */
  lemma ClosedSplitKeepsEndedSession(A: Id, a: TerminalId, B: Id, b: TerminalId)
    requires A != B && a != b
    ensures var before := [ConnectFocused(A, a, None), ConnectFocused(B, b, Some(A)), Focused(A, Some(B))];
      var after := After(before + [SplitClosed(A, a, Some(B), Some(B))]);
      Inv(After(before)) && after.active == Some(A) && A !in after.connected
  {
    var before := [ConnectFocused(A, a, None), ConnectFocused(B, b, Some(A)), Focused(A, Some(B))];
    Refocuses(A, a, B, b);
    hide After, Step, Inv;
    AfterSnoc(before, SplitClosed(A, a, Some(B), Some(B)), before + [SplitClosed(A, a, Some(B), Some(B))]);
    EndedFocus(A, a, B, b);
  }

  lemma EndedFocus(A: Id, a: TerminalId, B: Id, b: TerminalId)
    requires A != B
    ensures var st := State(Some(A), 0, [A, B], map[A := [a], B := [b]], map[], []);
      var next := Step(st, SplitClosed(A, a, Some(B), Some(B)));
      Inv(st) && next.active == Some(A) && A !in next.connected
  {
    assert Without([a], a) == [] by {
      assert [a][..0] == [];
    }
    WithoutSome(A, B);
    hide Without;
  }

  // --- Disconnects ---

  lemma {:induction false} UsedGrows(states: seq<State>, used: seq<set<TerminalId>>, events: seq<Event>, m: nat, n: nat)
    requires IsRun(states, used, events) && m <= n <= |events|
    ensures used[m] <= used[n]
  {
    if m < n {
      UsedGrows(states, used, events, m, n - 1);
    }
  }

  lemma OpenedOnce(states: seq<State>, used: seq<set<TerminalId>>, events: seq<Event>, i: nat, j: nat, t: TerminalId)
    requires IsRun(states, used, events) && i < |events| && j < |events|
    requires Added(events[i]) == Some(t) && Added(events[j]) == Some(t)
    ensures i == j
  {
    var k, l := if i < j then i else j, if i < j then j else i;
    if k < l {
      UsedGrows(states, used, events, k + 1, l);
    }
  }

  /** The answer to a disconnect asked for at `m` removes whatever the session shows at `n`.
      It takes only terminals that were there when the user asked exactly when no terminal
      opened for the session in between is still live. */
  lemma DisconnectTakesWhatItSaw(states: seq<State>, used: seq<set<TerminalId>>, events: seq<Event>, m: nat, n: nat, s: Id)
    requires IsRun(states, used, events) && m < n < |events|
    requires events[m] == DisconnectAsked(s) && events[n] == DisconnectAnswered(s)
    ensures PanesOf(states[n + 1], s) == []
    ensures (forall t | t in PanesOf(states[n], s) :: t in PanesOf(states[m], s))
       <==> !exists i: nat, t :: m <= i && LiveSince(states, events, s, t, i, n)
  {
    hide Opens, Retires;
    forall t ensures t in PanesOf(states[n], s) <==> Live(states, events, s, t, n) {
      PanesAreHistory(states, used, events, n, s, t);
    }
    forall t ensures t in PanesOf(states[m], s) <==> Live(states, events, s, t, m) {
      PanesAreHistory(states, used, events, m, s, t);
    }
    assert PanesOf(states[n + 1], s) == [] by {
      EndedPanes(states[n], s);
    }
    hide Step, IsRun, PanesOf;
    if i: nat, t :| m <= i && LiveSince(states, events, s, t, i, n) {
      OpenedLater(states, used, events, m, i, n, s, t);
      assert Live(states, events, s, t, n);
    } else {
      forall t | t in PanesOf(states[n], s) ensures t in PanesOf(states[m], s) {
        var i: nat :| LiveSince(states, events, s, t, i, n);
        assert i < m;
        assert LiveSince(states, events, s, t, i, m);
      }
    }
  }

  lemma OpenedLater(
    states: seq<State>, used: seq<set<TerminalId>>, events: seq<Event>, m: nat, i: nat, n: nat, s: Id, t: TerminalId)
    requires IsRun(states, used, events) && m <= i < n <= |events| && Opens(events[i], s, t)
    ensures !Live(states, events, s, t, m)
  {
    forall k: nat ensures !LiveSince(states, events, s, t, k, m) {
      if k < m && Opens(events[k], s, t) {
        OpenedOnce(states, used, events, k, i, t);
      }
    }
  }

  /** Such a run: the close event of the session's terminal reaches the window before the
      answer does, so the profile is connected anew instead of being shown. The answer then
      takes the new connection off the screen. */
  lemma LateDisconnectDropsNewConnection(A: Id, a: TerminalId, b: TerminalId)
    ensures var before := [ConnectShown(A, a), DisconnectAsked(A), Closed(A, a, true, false), ConnectShown(A, b)];
      var after := After(before + [DisconnectAnswered(A)]);
      && Inv(After(before)) && PanesOf(After(before), A) == [b] && After(before).active == Some(A)
      && PanesOf(after, A) == [] && after.active == None
  {
    var before := [ConnectShown(A, a), DisconnectAsked(A), Closed(A, a, true, false), ConnectShown(A, b)];
    Reconnects(A, a, b);
    hide After, Step;
    AfterSnoc(before, DisconnectAnswered(A), before + [DisconnectAnswered(A)]);
    Ends(A, b);
  }

  lemma Reconnects(A: Id, a: TerminalId, b: TerminalId)
    ensures After([ConnectShown(A, a), DisconnectAsked(A), Closed(A, a, true, false), ConnectShown(A, b)])
         == State(Some(A), 3, [A], map[A := [b]], map[], [])
  {
    var e0, e1, e2, e3 := ConnectShown(A, a), DisconnectAsked(A), Closed(A, a, true, false), ConnectShown(A, b);
    assert After([]) == START;
    hide After;
    AfterSnoc([], e0, [e0]);
    AfterSnoc([e0], e1, [e0, e1]);
    AfterSnoc([e0, e1], e2, [e0, e1, e2]);
    AfterSnoc([e0, e1, e2], e3, [e0, e1, e2, e3]);
    Opening(A, a, b);
    hide Step;
    ClosesDown(A, a);
  }

  lemma Opening(A: Id, a: TerminalId, b: TerminalId)
    ensures var one := State(Some(A), 1, [A], map[A := [a]], map[], []);
      Step(START, ConnectShown(A, a)) == one && Step(one, DisconnectAsked(A)) == one
    ensures Step(State(None, 2, [], map[], map[], []), ConnectShown(A, b)) == State(Some(A), 3, [A], map[A := [b]], map[], [])
  {
  }

  lemma ClosesDown(A: Id, a: TerminalId)
    ensures Step(State(Some(A), 1, [A], map[A := [a]], map[], []), Closed(A, a, true, false)) == State(None, 2, [], map[], map[], [])
  {
    assert Without([a], a) == [] && Without([A], A) == [] by {
      assert [a][..0] == [] && [A][..0] == [];
    }
    hide Without;
    assert map[A := [a]] - {A} == map[];
  }

  lemma Ends(A: Id, b: TerminalId)
    ensures var st := State(Some(A), 3, [A], map[A := [b]], map[], []);
      Inv(st) && PanesOf(st, A) == [b] && PanesOf(Step(st, DisconnectAnswered(A)), A) == [] && Step(st, DisconnectAnswered(A)).active == None
  {
    assert Without([A], A) == [] by {
      assert [A][..0] == [];
    }
    hide Without;
  }
}
