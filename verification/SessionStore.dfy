/** The session store as an object: each reducer of `src/stores/sessionStore.ts` and each
    handler that drives it updates the fields the way `Sessions` specifies. */
module SessionStore {
  import opened Wrappers
  import Spec = Sessions

  class Store {
    var active: Option<Spec.Id>
    var revision: nat
    var connected: seq<Spec.Id>
    var panes: map<Spec.Id, seq<Spec.TerminalId>>
    var telemetry: map<Spec.Id, int>
    var lost: seq<Spec.Id>

    ghost function View(): Spec.State
      reads this
    {
      Spec.State(active, revision, connected, panes, telemetry, lost)
    }

    constructor ()
      ensures View() == Spec.START
    {
      active, revision, connected, panes, telemetry, lost := None, 0, [], map[], map[], [];
    }

    /** `focusPane`; `seen` is the session the handler knows to be active. */
    method FocusPane(owner: Option<Spec.Id>, seen: Option<Spec.Id>)
      modifies this
      ensures View() == Spec.FocusSession(old(View()), owner, seen)
    {
      if owner.Some? && owner != seen {
        active := owner;
      }
    }

    method ShowSession(s: Option<Spec.Id>)
      modifies this
      ensures View() == Spec.ShowSession(old(View()), s)
    {
      active := s;
      revision := revision + 1;
    }

    method AddConnectedSession(s: Spec.Id, t: Spec.TerminalId)
      modifies this
      ensures View() == Spec.AddConnectedSession(old(View()), s, t)
    {
      if s !in connected {
        connected := connected + [s];
      }
      panes := panes[s := [t]];
    }

    method AddTerminalPane(s: Spec.Id, t: Spec.TerminalId)
      modifies this
      ensures View() == Spec.AddTerminalPane(old(View()), s, t)
    {
      var current := if s in panes then panes[s] else [];
      if t !in current {
        panes := panes[s := current + [t]];
      }
    }

    method RemoveTerminalPane(s: Spec.Id, t: Spec.TerminalId)
      modifies this
      ensures View() == Spec.RemoveTerminalPane(old(View()), s, t)
    {
      var remaining := Spec.Without(if s in panes then panes[s] else [], t);
      if |remaining| > 0 {
        panes := panes[s := remaining];
      } else {
        panes := panes - {s};
        connected := Spec.Without(connected, s);
        telemetry := telemetry - {s};
      }
    }

    method RemoveConnectedSession(s: Spec.Id)
      modifies this
      ensures View() == Spec.RemoveConnectedSession(old(View()), s)
    {
      panes := panes - {s};
      connected := Spec.Without(connected, s);
      telemetry := telemetry - {s};
    }

    method SetSessionTelemetry(s: Spec.Id, payload: Option<int>)
      modifies this
      ensures View() == Spec.SetTelemetry(old(View()), s, payload)
    {
      if payload.None? {
        telemetry := telemetry - {s};
      } else {
        telemetry := telemetry[s := payload.value];
      }
    }

    method MarkSessionLost(s: Spec.Id)
      modifies this
      ensures View() == Spec.MarkSessionLost(old(View()), s)
    {
      if s !in lost {
        lost := lost + [s];
      }
    }

    method ClearSessionLost(s: Spec.Id)
      modifies this
      ensures View() == Spec.ClearSessionLost(old(View()), s)
    {
      if s in lost {
        lost := Spec.Without(lost, s);
      }
    }

    /** The `terminal-closed` listener. What it compares with the active session is the
        store as it was when the event arrived. */
    method OnTerminalClosed(s: Spec.Id, terminalId: Option<Spec.TerminalId>, closed: bool, connectionLost: bool)
      modifies this
      ensures View() == Spec.TerminalClosed(old(View()), s, if terminalId.Some? then terminalId.value else s, closed, connectionLost)
    {
      var t := if terminalId.Some? then terminalId.value else s;
      var shown := if s in panes then panes[s] else [];
      var wasActive, wasConnected := active, connected;
      if t !in shown {
        return;
      }
      var remainingPanes := Spec.Without(shown, t);
      RemoveTerminalPane(s, t);
      var sessionClosed := closed || |remainingPanes| == 0;
      if sessionClosed && wasActive == Some(s) {
        ShowSession(Spec.Fallback(wasConnected, s));
      }
      if sessionClosed && connectionLost {
        MarkSessionLost(s);
      }
    }

    /** The first half of a disconnect, up to the call to the backend, which is made only
        for a connected session. Naming no session means the active one. */
    method StartDisconnect(s: Option<Spec.Id>) returns (request: Option<Spec.Id>)
      modifies this
      ensures var id := if s.Some? then s else old(active);
        && View() == (if id.Some? && id.value != "" then Spec.ClearSessionLost(old(View()), id.value) else old(View()))
        && request == (if id.Some? && id.value != "" && id.value in old(connected) then id else None)
    {
      var id := if s.Some? then s else active;
      if id.None? || id.value == "" {
        return None;
      }
      ClearSessionLost(id.value);
      return if id.value in connected then id else None;
    }

    /** The second half, on the store as it is once the backend has answered. */
    method OnDisconnected(s: Spec.Id)
      modifies this
      ensures View() == Spec.DisconnectDone(old(View()), s)
    {
      var wasActive, wasConnected := active, connected;
      RemoveConnectedSession(s);
      if wasActive == Some(s) {
        ShowSession(Spec.Fallback(wasConnected, s));
      }
    }

    /** The backend has deleted the profile. */
    method OnProfileDeleted(s: Spec.Id)
      modifies this
      ensures View() == Spec.Deleted(old(View()), s)
    {
      ClearSessionLost(s);
      if s in connected {
        OnDisconnected(s);
      }
    }
  }
}
