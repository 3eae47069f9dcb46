/** The session store (`src/stores/sessionStore.ts`) with the handlers that drive it:
    close events (`src/App.tsx`) and disconnects (`src/hooks/useDisconnectSession.ts`). */
module Sessions {
  import opened Wrappers

  type Id = string
  type TerminalId = string

  datatype State = State(
    active: Option<Id>,
    revision: nat,
    connected: seq<Id>,
    panes: map<Id, seq<TerminalId>>,
    telemetry: map<Id, int>,
    lost: seq<Id>)

  const START := State(None, 0, [], map[], map[], [])

  function Without(ids: seq<string>, id: string): seq<string> {
    if ids == [] then []
    else
      var n := |ids| - 1;
      Without(ids[..n], id) + if ids[n] == id then [] else [ids[n]]
  }

  function PanesOf(st: State, s: Id): seq<TerminalId> {
    if s in st.panes then st.panes[s] else []
  }

  // --- Reducers ---

  function ShowSession(st: State, s: Option<Id>): State {
    st.(active := s, revision := st.revision + 1)
  }

  function AddConnectedSession(st: State, s: Id, t: TerminalId): State {
    st.(connected := if s in st.connected then st.connected else st.connected + [s], panes := st.panes[s := [t]])
  }

  function AddTerminalPane(st: State, s: Id, t: TerminalId): State {
    if t in PanesOf(st, s) then st else st.(panes := st.panes[s := PanesOf(st, s) + [t]])
  }

  function RemoveTerminalPane(st: State, s: Id, t: TerminalId): State {
    var remaining := Without(PanesOf(st, s), t);
    if |remaining| > 0 then st.(panes := st.panes[s := remaining])
    else RemoveConnectedSession(st, s)
  }

  function RemoveConnectedSession(st: State, s: Id): State {
    st.(connected := Without(st.connected, s), panes := st.panes - {s}, telemetry := st.telemetry - {s})
  }

  function SetTelemetry(st: State, s: Id, payload: Option<int>): State {
    st.(telemetry := if payload.None? then st.telemetry - {s} else st.telemetry[s := payload.value])
  }

  function MarkSessionLost(st: State, s: Id): State {
    if s in st.lost then st else st.(lost := st.lost + [s])
  }

  function ClearSessionLost(st: State, s: Id): State {
    if s in st.lost then st.(lost := Without(st.lost, s)) else st
  }

  /** `focusPane`: the pane's owner becomes the active session, unless it is the one the
      handler saw as active when it started, which may be some time ago. */
  function FocusSession(st: State, owner: Option<Id>, seen: Option<Id>): State {
    if owner.None? || owner == seen then st else st.(active := owner)
  }

  // --- Handlers ---

  /** The most recently connected session other than `s`. */
  function Fallback(connected: seq<Id>, s: Id): Option<Id> {
    var remaining := Without(connected, s);
    if remaining == [] then None else Some(remaining[|remaining| - 1])
  }

  function TerminalClosed(st: State, s: Id, t: TerminalId, closed: bool, connectionLost: bool): State {
    if t !in PanesOf(st, s) then st
    else
      var sessionClosed := closed || Without(PanesOf(st, s), t) == [];
      var removed := RemoveTerminalPane(st, s, t);
      var shown := if sessionClosed && st.active == Some(s) then ShowSession(removed, Fallback(st.connected, s)) else removed;
      if sessionClosed && connectionLost then MarkSessionLost(shown, s) else shown
  }

  /** What a disconnect does once the backend has answered. */
  function DisconnectDone(st: State, s: Id): State {
    var removed := RemoveConnectedSession(st, s);
    if st.active == Some(s) then ShowSession(removed, Fallback(st.connected, s)) else removed
  }

  /** A profile was deleted. */
  function Deleted(st0: State, s: Id): State {
    var st := ClearSessionLost(st0, s);
    if s in st.connected then DisconnectDone(st, s) else st
  }

  // --- Events ---

  /** `seen` is the session that was active when the handler started; `focus` is the owner,
      if it has one, of the pane that a closed split leaves to focus. */
  datatype Event =
    | ConnectShown(s: Id, t: TerminalId)
    | ConnectFocused(s: Id, t: TerminalId, seen: Option<Id>)
    | Reconnected(s: Id, t: TerminalId)
    | SplitOpened(s: Id, t: TerminalId, seen: Option<Id>)
    | SplitClosed(s: Id, t: TerminalId, focus: Option<Id>, seen: Option<Id>)
    | Closed(s: Id, t: TerminalId, sessionClosed: bool, connectionLost: bool)
    | DisconnectAsked(s: Id)
    | DisconnectAnswered(s: Id)
    | ProfileDeleted(s: Id)
    | Shown(target: Option<Id>)
    | Focused(s: Id, seen: Option<Id>)
    | Telemetry(s: Id, payload: Option<int>)
    | MarkedLost(s: Id)
    | ClearedLost(s: Id)

  function Step(st: State, e: Event): State {
    match e
    case ConnectShown(s, t) => ShowSession(AddConnectedSession(st, s, t), Some(s))
    case ConnectFocused(s, t, seen) => FocusSession(AddConnectedSession(st, s, t), Some(s), seen)
    case Reconnected(s, t) =>
      var added := AddConnectedSession(st, s, t);
      if added.active.None? then ShowSession(added, Some(s)) else added
    case SplitOpened(s, t, seen) => FocusSession(AddTerminalPane(st, s, t), Some(s), seen)
    case SplitClosed(s, t, focus, seen) => FocusSession(RemoveTerminalPane(st, s, t), focus, seen)
    case Closed(s, t, sessionClosed, connectionLost) => TerminalClosed(st, s, t, sessionClosed, connectionLost)
    case DisconnectAsked(s) => ClearSessionLost(st, s)
    case DisconnectAnswered(s) => DisconnectDone(st, s)
    case ProfileDeleted(s) => Deleted(st, s)
    case Shown(s) => ShowSession(st, s)
    case Focused(s, seen) => FocusSession(st, Some(s), seen)
    case Telemetry(s, payload) => SetTelemetry(st, s, payload)
    case MarkedLost(s) => MarkSessionLost(st, s)
    case ClearedLost(s) => ClearSessionLost(st, s)
  }

  function Added(e: Event): Option<TerminalId> {
    if e.ConnectShown? || e.ConnectFocused? || e.Reconnected? || e.SplitOpened? then Some(e.t) else None
  }

  function Owner(e: Event): Id {
    if Added(e).Some? then e.s else ""
  }

  /** The backend never uses a terminal id again. */
  predicate Fresh(used: set<TerminalId>, e: Event) {
    Added(e).Some? ==> Added(e).value !in used
  }

  // --- When a step is safe ---

  /** Only connected sessions are given panes. */
  predicate PanesSafe(st: State, e: Event) {
    e.SplitOpened? ==> e.s in st.connected
  }

  /** Only connected sessions are shown or focused, and the pane that is closed last is not
      the one of the session that stays active. */
  predicate ActiveSafe(st: State, e: Event) {
    match e
    case SplitOpened(s, _, seen) => seen == Some(s) || s in st.connected
    case SplitClosed(s, t, focus, seen) =>
      var after := if focus.None? || focus == seen then st.active else focus;
      after.Some? ==> (after == st.active || after.value in st.connected) && !(after.value == s && PanesOf(st, s) == [t])
    case Shown(target) => target.Some? ==> target.value in st.connected
    case Focused(s, seen) => seen == Some(s) || s in st.connected
    case _ => true
  }

  predicate Safe(st: State, e: Event) {
    PanesSafe(st, e) && ActiveSafe(st, e)
  }

  function Used(used: set<TerminalId>, e: Event): set<TerminalId> {
    if Added(e).Some? then used + {Added(e).value} else used
  }

  // --- The invariant ---

  ghost predicate NoDup(ids: seq<string>) {
    forall i, j | 0 <= i < j < |ids| :: ids[i] != ids[j]
  }

  ghost predicate PanesOk(connected: seq<Id>, panes: map<Id, seq<TerminalId>>) {
    && NoDup(connected)
    && (forall s :: s in connected <==> s in panes)
    && (forall s | s in panes :: panes[s] != [] && NoDup(panes[s]))
  }

  ghost predicate ActiveOk(active: Option<Id>, connected: seq<Id>) {
    active.Some? ==> active.value in connected
  }

  ghost predicate Inv(st: State) {
    && PanesOk(st.connected, st.panes)
    && ActiveOk(st.active, st.connected)
    && NoDup(st.lost)
  }

  lemma {:induction false} WithoutHas(ids: seq<string>, id: string)
    ensures forall x :: x in Without(ids, id) <==> x in ids && x != id
    ensures NoDup(ids) ==> NoDup(Without(ids, id))
  {
    if ids != [] {
      var n := |ids| - 1;
      assert ids == ids[..n] + [ids[n]];
      WithoutHas(ids[..n], id);
      if NoDup(ids) {
        assert ids[n] !in ids[..n];
      }
    }
  }

  lemma NoDupSnoc(ids: seq<string>, id: string)
    requires NoDup(ids) && id !in ids
    ensures NoDup(ids + [id])
  {
  }

  lemma FallbackOk(connected: seq<Id>, s: Id)
    ensures ActiveOk(Fallback(connected, s), Without(connected, s))
    ensures Fallback(connected, s) != Some(s)
  {
    WithoutHas(connected, s);
    var remaining := Without(connected, s);
    assert remaining != [] ==> remaining[|remaining| - 1] in remaining;
  }

  lemma RemoveKeeps(st: State, s: Id)
    requires PanesOk(st.connected, st.panes)
    ensures var next := RemoveConnectedSession(st, s);
      && PanesOk(next.connected, next.panes)
      && (ActiveOk(st.active, st.connected) && st.active != Some(s) ==> ActiveOk(next.active, next.connected))
  {
    WithoutHas(st.connected, s);
    hide Without, NoDup;
  }

  lemma RemovePaneKeeps(st: State, s: Id, t: TerminalId)
    requires PanesOk(st.connected, st.panes)
    ensures var next := RemoveTerminalPane(st, s, t);
      && PanesOk(next.connected, next.panes)
      && next.connected == (if Without(PanesOf(st, s), t) == [] then Without(st.connected, s) else st.connected)
      && (Without(PanesOf(st, s), t) != [] ==> s in st.connected)
  {
    WithoutHas(PanesOf(st, s), t);
    RemoveKeeps(st, s);
    assert Without(PanesOf(st, s), t) != [] ==> Without(PanesOf(st, s), t)[0] in Without(PanesOf(st, s), t);
    hide Without, NoDup;
  }

  lemma AddKeeps(st: State, s: Id, t: TerminalId)
    requires Inv(st)
    ensures Inv(AddConnectedSession(st, s, t)) && s in AddConnectedSession(st, s, t).connected
  {
    if s !in st.connected {
      NoDupSnoc(st.connected, s);
    }
    assert NoDup([t]);
  }

  lemma LostUntouched(st: State, s: Id, t: TerminalId)
    ensures RemoveTerminalPane(st, s, t).lost == st.lost && RemoveTerminalPane(st, s, t).active == st.active
  {
  }

  lemma CloseKeeps(st: State, s: Id, t: TerminalId, closed: bool, connectionLost: bool)
    requires Inv(st)
    ensures Inv(TerminalClosed(st, s, t, closed, connectionLost))
  {
    RemovePaneKeeps(st, s, t);
    LostUntouched(st, s, t);
    FallbackOk(st.connected, s);
    WithoutHas(st.connected, s);
    LostKeeps(st.lost, s);
    var removed := RemoveTerminalPane(st, s, t);
    assert ActiveOk(Fallback(st.connected, s), removed.connected);
    assert st.active != Some(s) ==> ActiveOk(st.active, removed.connected);
    assert removed.connected == st.connected || Without(PanesOf(st, s), t) == [];
    hide Without, NoDup, PanesOk, Fallback, RemoveTerminalPane, PanesOf;
  }

  lemma LostKeeps(lost: seq<Id>, s: Id)
    requires NoDup(lost)
    ensures NoDup(if s in lost then lost else lost + [s]) && NoDup(Without(lost, s))
  {
    WithoutHas(lost, s);
  }

  lemma DisconnectKeeps(st: State, s: Id)
    requires Inv(st)
    ensures Inv(DisconnectDone(st, s))
  {
    RemoveKeeps(st, s);
    FallbackOk(st.connected, s);
    hide Without, NoDup, PanesOk, Fallback;
  }

  lemma OnlyPane(ids: seq<string>, t: string)
    requires NoDup(ids) && t in ids
    ensures Without(ids, t) == [] <==> ids == [t]
  {
    WithoutHas(ids, t);
    if ids == [t] {
      assert ids[..0] == [];
    } else {
      var i :| 0 <= i < |ids| && ids[i] == t;
      var j := if i == 0 then 1 else 0;
      assert ids[j] in ids && ids[j] != t;
    }
  }

  lemma SplitOpenedKeeps(st: State, s: Id, t: TerminalId, seen: Option<Id>)
    requires Inv(st)
    ensures Inv(Step(st, SplitOpened(s, t, seen))) <==> s in st.connected
  {
    if s in st.connected {
      PaneAddedKeeps(st, s, t);
      hide AddTerminalPane, PanesOk, NoDup;
    } else {
      hide NoDup;
      assert s !in st.panes;
      var next := Step(st, SplitOpened(s, t, seen));
      assert s in next.panes && s !in next.connected;
    }
  }

  lemma PaneAddedKeeps(st: State, s: Id, t: TerminalId)
    requires Inv(st) && s in st.connected
    ensures Inv(AddTerminalPane(st, s, t)) && AddTerminalPane(st, s, t).connected == st.connected
  {
    if t !in PanesOf(st, s) {
      NoDupSnoc(PanesOf(st, s), t);
    }
    hide NoDup;
  }

  /** Closing a split takes the session with its last pane, and only then. */
  lemma RemovalEnds(st: State, s: Id, t: TerminalId)
    requires PanesOk(st.connected, st.panes)
    ensures forall x :: x in RemoveTerminalPane(st, s, t).connected <==> x in st.connected && !(x == s && PanesOf(st, s) == [t])
  {
    RemovePaneKeeps(st, s, t);
    WithoutHas(st.connected, s);
    WithoutHas(PanesOf(st, s), t);
    if t in PanesOf(st, s) {
      OnlyPane(PanesOf(st, s), t);
    } else if PanesOf(st, s) != [] {
      assert PanesOf(st, s)[0] in Without(PanesOf(st, s), t);
    }
    hide Without, NoDup, RemoveTerminalPane;
  }

  lemma SplitClosedKeeps(st: State, s: Id, t: TerminalId, focus: Option<Id>, seen: Option<Id>)
    requires Inv(st)
    ensures Inv(Step(st, SplitClosed(s, t, focus, seen))) <==> ActiveSafe(st, SplitClosed(s, t, focus, seen))
  {
    var removed := RemoveTerminalPane(st, s, t);
    RemovePaneKeeps(st, s, t);
    RemovalEnds(st, s, t);
    LostUntouched(st, s, t);
    hide RemoveTerminalPane, Without, NoDup, PanesOk, PanesOf;
    assert Inv(Step(st, SplitClosed(s, t, focus, seen))) <==> ActiveOk(FocusSession(removed, focus, seen).active, removed.connected);
  }

  /** Each step keeps the invariant exactly when it is safe. */
  lemma StepKeeps(st: State, e: Event)
    requires Inv(st)
    ensures Inv(Step(st, e)) <==> Safe(st, e)
  {
    hide TerminalClosed, DisconnectDone, AddConnectedSession, AddTerminalPane, RemoveTerminalPane, Without, NoDup, PanesOk;
    match e
    case ConnectShown(s, t) => AddKeeps(st, s, t);
    case ConnectFocused(s, t, _) => AddKeeps(st, s, t);
    case Reconnected(s, t) => AddKeeps(st, s, t);
    case SplitOpened(s, t, seen) => SplitOpenedKeeps(st, s, t, seen);
    case SplitClosed(s, t, focus, seen) => SplitClosedKeeps(st, s, t, focus, seen);
    case Closed(s, t, sessionClosed, connectionLost) => CloseKeeps(st, s, t, sessionClosed, connectionLost);
    case DisconnectAsked(s) => LostKeeps(st.lost, s);
    case DisconnectAnswered(s) => DisconnectKeeps(st, s);
    case ProfileDeleted(s) =>
      LostKeeps(st.lost, s);
      DisconnectKeeps(ClearSessionLost(st, s), s);
    case MarkedLost(s) => LostKeeps(st.lost, s);
    case ClearedLost(s) => LostKeeps(st.lost, s);
    case _ =>
  }

  // --- Terminal ids ---

  /** Every terminal id on screen has been issued, and belongs to one session only. */
  ghost predicate IdsOk(panes: map<Id, seq<TerminalId>>, used: set<TerminalId>) {
    && (forall s, t | s in panes && t in panes[s] :: t in used)
    && (forall s, r, t | s in panes && r in panes && t in panes[s] && t in panes[r] :: s == r)
  }

  ghost predicate OnScreen(panes: map<Id, seq<TerminalId>>, t: TerminalId) {
    exists s :: s in panes && t in panes[s]
  }

  /** `panes` only loses terminals, but for the one named. */
  ghost predicate OnlyAdds(before: map<Id, seq<TerminalId>>, after: map<Id, seq<TerminalId>>, s0: Id, added: Option<TerminalId>) {
    forall s, t | s in after && t in after[s] :: (s in before && t in before[s]) || (s == s0 && added == Some(t))
  }

  lemma StepAdds(st: State, e: Event)
    ensures OnlyAdds(st.panes, Step(st, e).panes, Owner(e), Added(e))
  {
    hide RemoveTerminalPane, Without, TerminalClosed, DisconnectDone, Deleted;
    match e
    case SplitClosed(s, t, _, _) => RemoveAdds(st, s, t, Owner(e), Added(e));
    case Closed(s, t, closed, connectionLost) =>
      RemoveAdds(st, s, t, Owner(e), Added(e));
      ClosedIsRemoval(st, s, t, closed, connectionLost);
    case DisconnectAnswered(s) => EndedPanes(st, s);
    case ProfileDeleted(s) => EndedPanes(st, s);
    case _ =>
  }

  lemma RemoveAdds(st: State, s: Id, t: TerminalId, s0: Id, added: Option<TerminalId>)
    ensures OnlyAdds(st.panes, RemoveTerminalPane(st, s, t).panes, s0, added)
  {
    WithoutHas(PanesOf(st, s), t);
  }

  lemma IdsKeep(st: State, used: set<TerminalId>, e: Event)
    requires IdsOk(st.panes, used) && Fresh(used, e)
    ensures IdsOk(Step(st, e).panes, Used(used, e))
  {
    var after := Step(st, e).panes;
    StepAdds(st, e);
    hide Step;
    assert Added(e).Some? ==> Added(e).value !in used && Used(used, e) == used + {Added(e).value};
    forall s, r, t | s in after && r in after && t in after[s] && t in after[r] ensures s == r {
      assert Added(e) == Some(t) || (s in st.panes && t in st.panes[s]);
    }
    forall s, t | s in after && t in after[s] ensures t in Used(used, e) {
      assert Added(e) == Some(t) || (s in st.panes && t in st.panes[s]);
    }
  }

  lemma NotBack(before: map<Id, seq<TerminalId>>, after: map<Id, seq<TerminalId>>, s0: Id, added: Option<TerminalId>, t: TerminalId)
    requires OnlyAdds(before, after, s0, added) && !OnScreen(before, t) && added != Some(t)
    ensures !OnScreen(after, t)
  {
    forall s | s in after ensures t !in after[s] {
      assert !(s in before && t in before[s]);
    }
  }

  // --- Whole runs ---

  ghost predicate IsRun(states: seq<State>, used: seq<set<TerminalId>>, events: seq<Event>) {
    && |states| == |used| == |events| + 1
    && states[0] == START && used[0] == {}
    && forall i | 0 <= i < |events| ::
         Fresh(used[i], events[i])
         && states[i + 1] == Step(states[i], events[i]) && used[i + 1] == Used(used[i], events[i])
  }

  ghost predicate SafeUpTo(states: seq<State>, events: seq<Event>, n: nat)
    requires n <= |states| && n <= |events|
  {
    forall i | 0 <= i < n :: Safe(states[i], events[i])
  }

  /** Over every run the invariant holds for as long as, and no longer than, every step is
      safe: connected ids have no duplicates and are the keys of the pane map, every pane
      list is non-empty and free of duplicates, and the active session is none or a
      connected one. */
  lemma {:induction false} RunKeeps(states: seq<State>, used: seq<set<TerminalId>>, events: seq<Event>, n: nat)
    requires IsRun(states, used, events) && n <= |events|
    ensures (forall i | 0 <= i <= n :: Inv(states[i])) <==> SafeUpTo(states, events, n)
  {
    hide Inv, Safe, Step;
    if n == 0 {
      StartKeeps();
    } else {
      var m := n - 1;
      RunKeeps(states, used, events, m);
      assert states[n] == Step(states[m], events[m]);
      assert SafeUpTo(states, events, n) <==> SafeUpTo(states, events, m) && Safe(states[m], events[m]);
      assert (forall i | 0 <= i <= n :: Inv(states[i])) <==> (forall i | 0 <= i <= m :: Inv(states[i])) && Inv(states[n]);
      if Inv(states[m]) {
        StepKeeps(states[m], events[m]);
      }
    }
  }

  lemma StartKeeps()
    ensures Inv(START)
  {
  }

  /** On every run whatever, no terminal is in two sessions, or shown without having been
      issued. */
  lemma {:induction false} RunKeepsIds(states: seq<State>, used: seq<set<TerminalId>>, events: seq<Event>, n: nat)
    requires IsRun(states, used, events) && n <= |events|
    ensures IdsOk(states[n].panes, used[n])
  {
    if n > 0 {
      RunKeepsIds(states, used, events, n - 1);
      IdsKeep(states[n - 1], used[n - 1], events[n - 1]);
    }
  }

  predicate Opens(e: Event, s: Id, t: TerminalId) {
    Added(e) == Some(t) && e.s == s
  }

  /** A new connection of the session retires all its terminals, as its end does; a close
      retires the terminal it names. */
  predicate Retires(st: State, e: Event, s: Id, t: TerminalId) {
    || ((e.ConnectShown? || e.ConnectFocused? || e.Reconnected?) && e.s == s)
    || ((e.Closed? || e.SplitClosed?) && e.s == s && e.t == t)
    || (e.DisconnectAnswered? && e.s == s)
    || (e.ProfileDeleted? && e.s == s && s in st.connected)
  }

  lemma StepPanes(st: State, e: Event, s: Id, t: TerminalId)
    ensures t in PanesOf(Step(st, e), s) <==> Opens(e, s, t) || (t in PanesOf(st, s) && !Retires(st, e, s, t))
  {
    if e.SplitClosed? || e.Closed? || e.DisconnectAnswered? || e.ProfileDeleted? {
      EndingPanes(st, e, s, t);
    }
  }

  lemma EndingPanes(st: State, e: Event, s: Id, t: TerminalId)
    requires e.SplitClosed? || e.Closed? || e.DisconnectAnswered? || e.ProfileDeleted?
    ensures t in PanesOf(Step(st, e), s) <==> t in PanesOf(st, s) && !Retires(st, e, s, t)
  {
    hide TerminalClosed, DisconnectDone, Deleted, RemoveTerminalPane, Without;
    match e
    case SplitClosed(s', t', _, _) => RemovePanes(st, s', t', s, t);
    case Closed(s', t', closed, connectionLost) =>
      RemovePanes(st, s', t', s, t);
      ClosedIsRemoval(st, s', t', closed, connectionLost);
    case DisconnectAnswered(s') => EndedPanes(st, s');
    case ProfileDeleted(s') => EndedPanes(st, s');
  }

  lemma EndedPanes(st: State, s: Id)
    ensures DisconnectDone(st, s).panes == st.panes - {s}
    ensures Deleted(st, s).panes == if s in st.connected then st.panes - {s} else st.panes
  {
    hide Without, Fallback;
  }

  lemma RemovePanes(st: State, s': Id, t': TerminalId, s: Id, t: TerminalId)
    ensures t in PanesOf(RemoveTerminalPane(st, s', t'), s) <==> t in PanesOf(st, s) && (s != s' || t != t')
  {
    WithoutHas(PanesOf(st, s'), t');
    hide NoDup, Without;
  }

  /** Event `i` put `t` on the screen for `s`, and nothing since has retired it. */
  ghost predicate LiveSince(states: seq<State>, events: seq<Event>, s: Id, t: TerminalId, i: nat, n: nat)
    requires n <= |events| && n <= |states|
  {
    i < n && Opens(events[i], s, t) && forall j | i < j < n :: !Retires(states[j], events[j], s, t)
  }

  ghost predicate Live(states: seq<State>, events: seq<Event>, s: Id, t: TerminalId, n: nat)
    requires n <= |events| && n <= |states|
  {
    exists i: nat :: LiveSince(states, events, s, t, i, n)
  }

  /** The history theorem for panes: after every run a session shows exactly the terminals
      opened for it that nothing has retired since. */
  lemma {:induction false} PanesAreHistory(
    states: seq<State>, used: seq<set<TerminalId>>, events: seq<Event>, n: nat, s: Id, t: TerminalId)
    requires IsRun(states, used, events) && n <= |events|
    ensures t in PanesOf(states[n], s) <==> Live(states, events, s, t, n)
  {
    if n > 0 {
      var m := n - 1;
      PanesAreHistory(states, used, events, m, s, t);
      StepPanes(states[m], events[m], s, t);
      hide Step, Opens, Retires;
      LiveGrows(states, events, s, t, m, n);
    }
  }

  lemma LiveGrows(states: seq<State>, events: seq<Event>, s: Id, t: TerminalId, m: nat, n: nat)
    requires m < |events| && m < |states| && n == m + 1 <= |states|
    ensures Live(states, events, s, t, n)
       <==> Opens(events[m], s, t) || (Live(states, events, s, t, m) && !Retires(states[m], events[m], s, t))
  {
    hide Opens, Retires;
    if Opens(events[m], s, t) {
      assert LiveSince(states, events, s, t, m, n);
    }
    if i: nat :| LiveSince(states, events, s, t, i, m) {
      assert !Retires(states[m], events[m], s, t) ==> LiveSince(states, events, s, t, i, n);
    }
    if i: nat :| LiveSince(states, events, s, t, i, n) {
      assert i < m ==> LiveSince(states, events, s, t, i, m);
    }
  }

  /** A terminal that was replaced or closed never comes back, so however late its close
      event arrives, for whatever session, it changes nothing. */
  lemma {:induction false} StaleCloseIsIgnored(
    states: seq<State>, used: seq<set<TerminalId>>, events: seq<Event>, m: nat, n: nat, t: TerminalId)
    requires IsRun(states, used, events) && m <= n < |states|
    requires t in used[m] && !OnScreen(states[m].panes, t)
    ensures t in used[n] && !OnScreen(states[n].panes, t)
    ensures forall s, closed, connectionLost :: TerminalClosed(states[n], s, t, closed, connectionLost) == states[n]
  {
    if m < n {
      hide Step, OnlyAdds, OnScreen, TerminalClosed;
      StaleCloseIsIgnored(states, used, events, m, n - 1, t);
      StepAdds(states[n - 1], events[n - 1]);
      NotBack(states[n - 1].panes, states[n].panes, Owner(events[n - 1]), Added(events[n - 1]), t);
    }
    UnknownClose(states[n], t);
  }

  lemma UnknownClose(st: State, t: TerminalId)
    requires !OnScreen(st.panes, t)
    ensures forall s, closed, connectionLost :: TerminalClosed(st, s, t, closed, connectionLost) == st
  {
    forall s, closed, connectionLost ensures TerminalClosed(st, s, t, closed, connectionLost) == st {
      assert t !in PanesOf(st, s);
    }
  }

  /** Replacing a connection takes every terminal of the old one off the screen. */
  lemma ReplacingRetires(st: State, used: set<TerminalId>, s: Id, t: TerminalId, gone: TerminalId)
    requires IdsOk(st.panes, used) && t !in used && s in st.panes && gone in st.panes[s]
    ensures !OnScreen(Step(st, ConnectShown(s, t)).panes, gone)
  {
  }

  /** A live close event takes exactly its pane, and the session with its last one. */
  lemma CloseTakesItsPane(st: State, s: Id, t: TerminalId, closed: bool, connectionLost: bool)
    requires Inv(st) && t in PanesOf(st, s)
    ensures var next := TerminalClosed(st, s, t, closed, connectionLost);
      && (forall x :: x in PanesOf(next, s) <==> x in PanesOf(st, s) && x != t)
      && (s in next.connected <==> PanesOf(st, s) != [t])
      && (forall r | r != s :: PanesOf(next, r) == PanesOf(st, r) && (r in next.connected <==> r in st.connected))
      && (var ended := closed || PanesOf(st, s) == [t];
          && next.active == (if ended && st.active == Some(s) then Fallback(st.connected, s) else st.active)
          && (s in next.lost <==> s in st.lost || (ended && connectionLost)))
  {
    WithoutHas(PanesOf(st, s), t);
    WithoutHas(st.connected, s);
    OnlyPane(PanesOf(st, s), t);
    hide Without, Fallback, NoDup;
  }

  function TelemetryOf(st: State, s: Id): Option<int> {
    if s in st.telemetry then Some(st.telemetry[s]) else None
  }

  /** A session's telemetry is what it was sent last, and goes with its connection; what comes
      for a session that is not connected is held too (`SessionTelemetry`). */
  lemma TelemetryFollowsSession(st: State, e: Event, s: Id)
    requires Inv(st)
    ensures var next := Step(st, e);
      if e.Telemetry? && e.s == s then TelemetryOf(next, s) == e.payload
      else if s in st.connected && s !in next.connected then TelemetryOf(next, s) == None
      else if s in st.connected then TelemetryOf(next, s) == TelemetryOf(st, s)
      else TelemetryOf(next, s) in {TelemetryOf(st, s), None}
  {
    hide NoDup, Without, Fallback, PanesOk;
    if e.SplitClosed? || e.Closed? || e.DisconnectAnswered? || e.ProfileDeleted? {
      EndingTelemetry(st, e, s);
    } else {
      hide RemoveTerminalPane, TerminalClosed, DisconnectDone, Deleted, PanesOf;
    }
  }

  lemma EndingTelemetry(st: State, e: Event, s: Id)
    requires Inv(st) && (e.SplitClosed? || e.Closed? || e.DisconnectAnswered? || e.ProfileDeleted?)
    ensures var next := Step(st, e);
      && (s in st.connected ==> TelemetryOf(next, s) == if s in next.connected then TelemetryOf(st, s) else None)
      && TelemetryOf(next, s) in {TelemetryOf(st, s), None}
  {
    hide Inv, NoDup, Without, Fallback, PanesOk, TerminalClosed, RemoveTerminalPane, DisconnectDone, Deleted;
    match e
    case SplitClosed(s', t, _, _) => RemovalAndTelemetry(st, s', t, s);
    case Closed(s', t, closed, connectionLost) =>
      RemovalAndTelemetry(st, s', t, s);
      ClosedIsRemoval(st, s', t, closed, connectionLost);
    case DisconnectAnswered(s') => EndAndTelemetry(st, s', s);
    case ProfileDeleted(s') => EndAndTelemetry(st, s', s);
  }

  lemma EndAndTelemetry(st: State, s': Id, s: Id)
    ensures forall next | next in {DisconnectDone(st, s'), Deleted(st, s')} ::
      && (s in st.connected ==> TelemetryOf(next, s) == if s in next.connected then TelemetryOf(st, s) else None)
      && TelemetryOf(next, s) in {TelemetryOf(st, s), None}
  {
    WithoutHas(st.connected, s');
    hide NoDup, Without, Fallback;
  }

  lemma ClosedIsRemoval(st: State, s: Id, t: TerminalId, closed: bool, connectionLost: bool)
    ensures var next := TerminalClosed(st, s, t, closed, connectionLost);
      var removed := if t in PanesOf(st, s) then RemoveTerminalPane(st, s, t) else st;
      next.telemetry == removed.telemetry && next.connected == removed.connected && next.panes == removed.panes
  {
    hide RemoveTerminalPane, Without, Fallback;
  }

  lemma RemovalAndTelemetry(st: State, s': Id, t: TerminalId, s: Id)
    requires Inv(st)
    ensures var next := RemoveTerminalPane(st, s', t);
      && (s in st.connected ==> TelemetryOf(next, s) == if s in next.connected then TelemetryOf(st, s) else None)
      && TelemetryOf(next, s) in {TelemetryOf(st, s), None}
  {
    WithoutHas(st.connected, s');
    hide Without, NoDup;
  }

  /** `r` is the session connected last among the others than `s`. */
  ghost predicate IsLatestOther(connected: seq<Id>, s: Id, k: nat, r: Id) {
    k < |connected| && connected[k] == r && r != s && forall j | k < j < |connected| :: connected[j] == s
  }

  /** The view falls back on the session connected last among the others, if there is one. */
  lemma {:induction false} FallbackIsMostRecent(connected: seq<Id>, s: Id)
    ensures match Fallback(connected, s)
      case None => forall x | x in connected :: x == s
      case Some(r) => exists k :: IsLatestOther(connected, s, k, r)
  {
    if connected != [] {
      var n := |connected| - 1;
      FallbackStep(connected, s);
      hide Fallback, Without;
      if connected[n] == s {
        FallbackIsMostRecent(connected[..n], s);
        if Fallback(connected, s).Some? {
          var r := Fallback(connected, s).value;
          var k :| IsLatestOther(connected[..n], s, k, r);
          assert IsLatestOther(connected, s, k, r);
        } else {
          assert connected == connected[..n] + [s];
        }
      } else {
        assert IsLatestOther(connected, s, n, connected[n]);
      }
    }
  }

  lemma FallbackStep(connected: seq<Id>, s: Id)
    requires connected != []
    ensures var n := |connected| - 1;
      Fallback(connected, s) == if connected[n] == s then Fallback(connected[..n], s) else Some(connected[n])
  {
  }
}
