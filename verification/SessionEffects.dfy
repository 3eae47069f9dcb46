/** What each event does to the session store, session by session: its own session is changed as
    a small machine says, all others are left alone, and the view moves only when it should
    (`src/stores/sessionStore.ts`, `src/App.tsx`, `src/hooks/useDisconnectSession.ts`,
    `src/components/SessionSidebar.tsx`). */
module SessionEffects {
  import opened Wrappers
  import opened Sessions

  // --- Order ---

  ghost predicate Precedes(ids: seq<string>, x: string, y: string) {
    exists i, j :: 0 <= i < j < |ids| && ids[i] == x && ids[j] == y
  }

  lemma PrecedesSnoc(ids: seq<string>, id: string, x: string, y: string)
    ensures Precedes(ids + [id], x, y) <==> Precedes(ids, x, y) || (x in ids && y == id)
  {
    var longer := ids + [id];
    if i, j :| 0 <= i < j < |longer| && longer[i] == x && longer[j] == y {
      assert ids[i] == x;
      assert j < |ids| ==> ids[j] == y;
    }
    if i, j :| 0 <= i < j < |ids| && ids[i] == x && ids[j] == y {
      assert longer[i] == x && longer[j] == y;
    }
    if x in ids && y == id {
      var i :| 0 <= i < |ids| && ids[i] == x;
      assert longer[i] == x && longer[|ids|] == y;
    }
  }

  /** Taking an id out leaves the others, in their order. */
  lemma {:induction false} WithoutKeepsOrder(ids: seq<string>, id: string, x: string, y: string)
    ensures x in Without(ids, id) <==> x in ids && x != id
    ensures Precedes(Without(ids, id), x, y) <==> Precedes(ids, x, y) && x != id && y != id
  {
    if ids != [] {
      var front, last := ids[..|ids| - 1], ids[|ids| - 1];
      hide Precedes;
      assert ids == front + [last];
      WithoutKeepsOrder(front, id, x, y);
      PrecedesSnoc(front, last, x, y);
      if last == id {
        assert Without(front, id) + [] == Without(front, id);
      } else {
        PrecedesSnoc(Without(front, id), last, x, y);
      }
    }
  }

  /** `after` are the ids of `before` but for `s`, in the same order. */
  ghost predicate OnlyWithout(before: seq<Id>, after: seq<Id>, s: Id) {
    && (forall x :: x in after <==> x in before && x != s)
    && (forall x, y :: Precedes(after, x, y) <==> Precedes(before, x, y) && x != s && y != s)
  }

  lemma WithoutIsOnly(ids: seq<Id>, s: Id)
    ensures OnlyWithout(ids, Without(ids, s), s)
  {
    forall x, y
      ensures x in Without(ids, s) <==> x in ids && x != s
      ensures Precedes(Without(ids, s), x, y) <==> Precedes(ids, x, y) && x != s && y != s
    {
      WithoutKeepsOrder(ids, s, x, y);
    }
  }

  // --- The machine of one session ---

  /** Whether the session is connected; its terminals, in order; its telemetry; whether it is
      lost. */
  datatype Part = Part(connected: bool, panes: seq<TerminalId>, telemetry: Option<int>, lost: bool)

  function PartOf(st: State, s: Id): Part {
    Part(s in st.connected, PanesOf(st, s), TelemetryOf(st, s), s in st.lost)
  }

  function Ended(p: Part): Part {
    Part(false, [], None, p.lost)
  }

  /** A terminal goes, and the session with its last one. */
  function Closing(p: Part, t: TerminalId): Part {
    var remaining := Without(p.panes, t);
    if remaining == [] then Ended(p) else p.(panes := remaining)
  }

  predicate HasSubject(e: Event) {
    !e.Shown?
  }

  function Own(p: Part, e: Event): Part
    requires HasSubject(e)
  {
    match e
    case ConnectShown(_, t) => p.(connected := true, panes := [t])
    case ConnectFocused(_, t, _) => p.(connected := true, panes := [t])
    case Reconnected(_, t) => p.(connected := true, panes := [t])
    case SplitOpened(_, t, _) => p.(panes := if t in p.panes then p.panes else p.panes + [t])
    case SplitClosed(_, t, _, _) => Closing(p, t)
    case Closed(_, t, closed, connectionLost) =>
      if t !in p.panes then p
      else
        var rest := Closing(p, t);
        if connectionLost && (closed || rest.panes == []) then rest.(lost := true) else rest
    case DisconnectAsked(_) => p.(lost := false)
    case DisconnectAnswered(_) => Ended(p)
    case ProfileDeleted(_) => if p.connected then Ended(p).(lost := false) else p.(lost := false)
    case Focused(_, _) => p
    case Telemetry(_, payload) => p.(telemetry := payload)
    case MarkedLost(_) => p.(lost := true)
    case ClearedLost(_) => p.(lost := false)
  }

  // --- Every event is a step of its own session's machine, and of no other ---

  lemma RemovalPart(st: State, s: Id, t: TerminalId, r: Id)
    ensures PartOf(RemoveTerminalPane(st, s, t), r) == if r == s then Closing(PartOf(st, r), t) else PartOf(st, r)
  {
    WithoutHas(st.connected, s);
    hide Without;
  }

  lemma EndPart(st: State, s: Id, r: Id)
    ensures PartOf(DisconnectDone(st, s), r) == if r == s then Ended(PartOf(st, r)) else PartOf(st, r)
  {
    WithoutHas(st.connected, s);
    hide Without, Fallback;
  }

  lemma LossPart(st: State, s: Id, r: Id)
    ensures PartOf(MarkSessionLost(st, s), r) == if r == s then PartOf(st, r).(lost := true) else PartOf(st, r)
    ensures PartOf(ClearSessionLost(st, s), r) == if r == s then PartOf(st, r).(lost := false) else PartOf(st, r)
  {
    WithoutHas(st.lost, s);
    hide Without;
  }

  lemma ClosedPart(st: State, s: Id, t: TerminalId, closed: bool, connectionLost: bool, r: Id)
    ensures PartOf(TerminalClosed(st, s, t, closed, connectionLost), r) ==
      if r == s then Own(PartOf(st, r), Closed(s, t, closed, connectionLost)) else PartOf(st, r)
  {
    RemovalPart(st, s, t, r);
    var removed := RemoveTerminalPane(st, s, t);
    var shown := ShowSession(removed, Fallback(st.connected, s));
    LossPart(removed, s, r);
    LossPart(shown, s, r);
    assert PartOf(shown, r) == PartOf(removed, r);
    hide RemoveTerminalPane, Without, Fallback, MarkSessionLost, ShowSession;
  }

  lemma FocusPart(st: State, owner: Option<Id>, seen: Option<Id>, r: Id)
    ensures PartOf(FocusSession(st, owner, seen), r) == PartOf(st, r)
    ensures PartOf(ShowSession(st, owner), r) == PartOf(st, r)
  {
  }

  lemma AddPart(st: State, s: Id, t: TerminalId, r: Id)
    ensures PartOf(AddConnectedSession(st, s, t), r) == if r == s then PartOf(st, r).(connected := true, panes := [t]) else PartOf(st, r)
    ensures PartOf(AddTerminalPane(st, s, t), r) ==
      if r == s && t !in PanesOf(st, r) then PartOf(st, r).(panes := PanesOf(st, r) + [t]) else PartOf(st, r)
  {
  }

  lemma OpeningPart(st: State, e: Event, r: Id)
    requires e.ConnectShown? || e.ConnectFocused? || e.Reconnected? || e.SplitOpened?
    ensures PartOf(Step(st, e), r) == if e.s == r then Own(PartOf(st, r), e) else PartOf(st, r)
  {
    AddPart(st, e.s, e.t, r);
    var added := AddConnectedSession(st, e.s, e.t);
    FocusPart(added, Some(e.s), if e.ConnectFocused? then e.seen else None, r);
    FocusPart(AddTerminalPane(st, e.s, e.t), Some(e.s), if e.SplitOpened? then e.seen else None, r);
    hide AddConnectedSession, AddTerminalPane, FocusSession, ShowSession;
  }

  /** The projection theorem of the store: an event changes its own session's part as that
      session's machine says, and no part of any other session. */
  lemma StepIsOwn(st: State, e: Event, r: Id)
    ensures PartOf(Step(st, e), r) == if HasSubject(e) && e.s == r then Own(PartOf(st, r), e) else PartOf(st, r)
  {
    hide AddConnectedSession, AddTerminalPane, RemoveTerminalPane, TerminalClosed, DisconnectDone, FocusSession, ShowSession,
      MarkSessionLost, ClearSessionLost, Without;
    match e
    case ConnectShown(s, t) => OpeningPart(st, e, r);
    case ConnectFocused(s, t, seen) => OpeningPart(st, e, r);
    case Reconnected(s, t) => OpeningPart(st, e, r);
    case SplitOpened(s, t, seen) => OpeningPart(st, e, r);
    case SplitClosed(s, t, focus, seen) =>
      RemovalPart(st, s, t, r);
      FocusPart(RemoveTerminalPane(st, s, t), focus, seen, r);
    case Closed(s, t, closed, connectionLost) => ClosedPart(st, s, t, closed, connectionLost, r);
    case DisconnectAsked(s) => LossPart(st, s, r);
    case DisconnectAnswered(s) => EndPart(st, s, r);
    case ProfileDeleted(s) =>
      LossPart(st, s, r);
      EndPart(ClearSessionLost(st, s), s, r);
      ClearKeeps(st, s);
    case Shown(target) => FocusPart(st, target, None, r);
    case Focused(s, seen) => FocusPart(st, Some(s), seen, r);
    case Telemetry(s, payload) =>
    case MarkedLost(s) => LossPart(st, s, r);
    case ClearedLost(s) => LossPart(st, s, r);
  }

  lemma ClearKeeps(st: State, s: Id)
    ensures var next := ClearSessionLost(st, s);
      next.connected == st.connected && next.active == st.active && next.revision == st.revision
  {
    hide Without;
  }

  // --- The order of the connected sessions ---

  /** A session that ends leaves the others as they were, in order; one that connects anew goes
      last; one that connects again stays where it is. */
  lemma ConnectedOrder(st: State, e: Event)
    ensures var before, after := st.connected, Step(st, e).connected;
      if HasSubject(e) && e.s in after && e.s !in before then after == before + [e.s]
      else if HasSubject(e) && e.s in before && e.s !in after then OnlyWithout(before, after, e.s)
      else after == before || (HasSubject(e) && e.s !in before && e.s !in after && OnlyWithout(before, after, e.s))
  {
    if HasSubject(e) {
      WithoutIsOnly(st.connected, e.s);
    }
    hide Without, Fallback, OnlyWithout, TerminalClosed, DisconnectDone;
    match e
    case SplitClosed(s, t, _, _) => RemovedConnected(st, s, t);
    case Closed(s, t, closed, connectionLost) =>
      RemovedConnected(st, s, t);
      ClosedIsRemoval(st, s, t, closed, connectionLost);
    case DisconnectAnswered(s) => EndedConnected(st, s);
    case ProfileDeleted(s) =>
      ClearKeeps(st, s);
      EndedConnected(ClearSessionLost(st, s), s);
    case _ =>
  }

  lemma RemovedConnected(st: State, s: Id, t: TerminalId)
    ensures RemoveTerminalPane(st, s, t).connected in {st.connected, Without(st.connected, s)}
    ensures s in RemoveTerminalPane(st, s, t).connected ==> RemoveTerminalPane(st, s, t).connected == st.connected
  {
    WithoutHas(st.connected, s);
    hide Without;
  }

  lemma EndedConnected(st: State, s: Id)
    ensures DisconnectDone(st, s).connected == Without(st.connected, s) && s !in DisconnectDone(st, s).connected
  {
    WithoutHas(st.connected, s);
    hide Without, Fallback;
  }

  // --- What is shown ---

  /** The view goes to the session connected last among the others, or to none. */
  ghost predicate FallsBack(st: State, s: Id, next: State) {
    && next.revision == st.revision + 1
    && match next.active
       case None => forall x | x in st.connected :: x == s
       case Some(r) => exists k :: IsLatestOther(st.connected, s, k, r)
  }

  ghost predicate ViewStays(st: State, next: State) {
    next.active == st.active && next.revision == st.revision
  }

  ghost predicate Shows(st: State, next: State, target: Option<Id>) {
    next.active == target && next.revision == st.revision + 1
  }

  /** A pane takes the focus: the view goes there unless it was seen there. */
  ghost predicate Focuses(st: State, next: State, owner: Option<Id>, seen: Option<Id>) {
    next.revision == st.revision && next.active == if owner.Some? && owner != seen then owner else st.active
  }

  /** Whether the event ends a session by a close, a disconnect or a deletion. */
  predicate EndsShown(st: State, e: Event) {
    match e
    case Closed(s, t, closed, _) => t in PanesOf(st, s) && (closed || Without(PanesOf(st, s), t) == [])
    case DisconnectAnswered(s) => true
    case ProfileDeleted(s) => s in st.connected
    case _ => false
  }

  /** What every event does to the view. The end of a session moves it only if that session was
      the one shown. */
  lemma ViewMoves(st: State, e: Event)
    ensures var next := Step(st, e);
      match e
      case ConnectShown(s, _) => Shows(st, next, Some(s))
      case ConnectFocused(s, _, seen) => Focuses(st, next, Some(s), seen)
      case Reconnected(s, _) => if st.active.None? then Shows(st, next, Some(s)) else ViewStays(st, next)
      case SplitOpened(s, _, seen) => Focuses(st, next, Some(s), seen)
      case SplitClosed(_, _, focus, seen) => Focuses(st, next, focus, seen)
      case Shown(target) => Shows(st, next, target)
      case Focused(s, seen) => Focuses(st, next, Some(s), seen)
      case Closed(s, _, _, _) => if EndsShown(st, e) && st.active == Some(s) then FallsBack(st, s, next) else ViewStays(st, next)
      case DisconnectAnswered(s) => if st.active == Some(s) then FallsBack(st, s, next) else ViewStays(st, next)
      case ProfileDeleted(s) => if EndsShown(st, e) && st.active == Some(s) then FallsBack(st, s, next) else ViewStays(st, next)
      case _ => ViewStays(st, next)
  {
    if HasSubject(e) {
      FallbackIsMostRecent(st.connected, e.s);
    }
    hide Without, Fallback, IsLatestOther;
    match e
    case Closed(s, t, closed, connectionLost) => ClosedView(st, s, t, closed, connectionLost);
    case SplitClosed(s, t, _, _) => LostUntouched(st, s, t);
    case ProfileDeleted(s) => ClearKeeps(st, s);
    case _ =>
  }

  lemma ClosedView(st: State, s: Id, t: TerminalId, closed: bool, connectionLost: bool)
    ensures var next := TerminalClosed(st, s, t, closed, connectionLost);
      var ended := t in PanesOf(st, s) && (closed || Without(PanesOf(st, s), t) == []);
      if ended && st.active == Some(s) then next.active == Fallback(st.connected, s) && next.revision == st.revision + 1
      else ViewStays(st, next)
  {
    hide Without, Fallback;
  }

  /** A disconnect, once answered, and the deletion of a connected session take that session and
      nothing else: it leaves the list, with its terminals and its telemetry; the others keep
      their order and all they have; and the view moves only if it was shown. */
  lemma EndTakesOnlyIts(st: State, e: Event)
    requires e.DisconnectAnswered? || (e.ProfileDeleted? && e.s in st.connected)
    ensures var next := Step(st, e);
      && OnlyWithout(st.connected, next.connected, e.s)
      && PanesOf(next, e.s) == [] && TelemetryOf(next, e.s) == None
      && (forall r | r != e.s :: PartOf(next, r) == PartOf(st, r))
      && (e.s in next.lost <==> e.s in st.lost && e.DisconnectAnswered?)
      && if st.active == Some(e.s) then FallsBack(st, e.s, next) else ViewStays(st, next)
  {
    var next := Step(st, e);
    forall r ensures PartOf(next, r) == if e.s == r then Own(PartOf(st, r), e) else PartOf(st, r) {
      StepIsOwn(st, e, r);
    }
    assert PartOf(next, e.s) == Own(PartOf(st, e.s), e);
    ViewMoves(st, e);
    WithoutIsOnly(st.connected, e.s);
    EndedConnected(st, e.s);
    ClearKeeps(st, e.s);
    EndedConnected(ClearSessionLost(st, e.s), e.s);
    hide DisconnectDone, Without, OnlyWithout, FallsBack, ClearSessionLost;
  }

  // --- Losses, over runs ---

  /** The event marks the session lost: it says so, or its connection ended the session. */
  predicate Loses(st: State, e: Event, s: Id) {
    || (e.MarkedLost? && e.s == s)
    || (e.Closed? && e.s == s && e.connectionLost && EndsShown(st, e))
  }

  /** The user disconnects or deletes the session, or it is connected again. */
  predicate EndsLoss(e: Event, s: Id) {
    (e.ClearedLost? || e.DisconnectAsked? || e.ProfileDeleted?) && e.s == s
  }

  ghost predicate LostSince(states: seq<State>, events: seq<Event>, s: Id, i: nat, n: nat)
    requires n <= |events| && n <= |states|
  {
    i < n && Loses(states[i], events[i], s) && forall j | i < j < n :: !EndsLoss(events[j], s)
  }

  lemma LossStep(st: State, e: Event, s: Id)
    ensures s in Step(st, e).lost <==> Loses(st, e, s) || (s in st.lost && !EndsLoss(e, s))
  {
    StepIsOwn(st, e, s);
    if e.Closed? && e.s == s {
      hide Step;
    } else {
      hide Step, Without;
    }
  }

  /** After every run a session is lost exactly if something lost it and neither a disconnect
      nor a deletion nor a reconnect has ended the loss since. */
  lemma {:induction false} LostIsHistory(states: seq<State>, used: seq<set<TerminalId>>, events: seq<Event>, n: nat, s: Id)
    requires IsRun(states, used, events) && n <= |events|
    ensures s in states[n].lost <==> exists i: nat :: LostSince(states, events, s, i, n)
  {
    if n > 0 {
      var m := n - 1;
      LostIsHistory(states, used, events, m, s);
      LossStep(states[m], events[m], s);
      hide Step, Loses;
      if Loses(states[m], events[m], s) {
        assert LostSince(states, events, s, m, n);
      }
      if i: nat :| LostSince(states, events, s, i, m) {
        assert !EndsLoss(events[m], s) ==> LostSince(states, events, s, i, n);
      }
      if i: nat :| LostSince(states, events, s, i, n) {
        assert i < m ==> LostSince(states, events, s, i, m);
      }
    }
  }
}
