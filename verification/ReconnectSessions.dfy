/** The reconnect hook seen from one session: whatever interleaves with it, each event does to a
    session what a small machine of its own says, and that machine decides when a connect is
    opened, retried and given up (`src/hooks/useAutoReconnect.ts`). */
module ReconnectSessions {
  import opened Wrappers
  import opened Floats
  import opened HostKey
  import opened PermanentErrors
  import opened Reconnect

  /** Whether the session is lost, connected, and has a profile; its count of failures; the delay
      of its timer; whether a connect of it is in flight or has just been answered. */
  datatype SessionView = SessionView(
    lost: bool, connected: bool, known: bool, count: nat, timer: Option<nat>, connecting: bool, settling: bool)

  ghost function View(st: State, s: Id): SessionView {
    SessionView(
      s in st.lost, s in st.connected, s in st.profiles, CountOf(st.attempts, s), TimerOf(st.timers, st.armed, s),
      Connecting(st.requests, s), s in st.settling)
  }

  function TimerOf(timers: map<Id, nat>, armed: map<nat, Timer>, s: Id): Option<nat> {
    if s in timers && timers[s] in armed then Some(armed[timers[s]].delayMs) else None
  }

  /** Milliseconds before the retry after so many failures. */
  function Delay(count: nat): nat {
    match count
    case 0 => 2000
    case 1 => 5000
    case 2 => 15000
    case 3 => 30000
    case _ => 60000
  }

  lemma DelaysAre(count: nat)
    ensures DelayMs(count) == Delay(count)
  {
  }

  // --- The machine of one session ---

  function GivenUp(v: SessionView): SessionView {
    v.(lost := false, count := 0)
  }

  /** An attempt: the timer goes; a session that is lost and not yet being connected is given up
      if it is connected or has no profile, waits if the network is off, and is connected. */
  function Tried(v: SessionView, online: bool): SessionView {
    var w := v.(timer := None);
    if v.connecting || v.settling || !v.lost then w
    else if v.connected || !v.known then GivenUp(w)
    else if !online then w.(timer := Some(Delay(v.count)))
    else w.(connecting := true)
  }

  /** A connect failed: ten failures, or an error no retry can mend, end the episode. */
  function FailedOnce(v: SessionView, error: string): SessionView {
    var w := v.(connecting := false, settling := true);
    if IsPermanentText(error) || v.count >= 9 then GivenUp(w)
    else w.(count := v.count + 1, timer := Some(Delay(v.count + 1)))
  }

  function Tidied(v: SessionView): SessionView {
    if v.lost then
      if v.timer.None? && !v.connecting && !v.settling then v.(timer := Some(Delay(v.count))) else v
    else if v.timer.Some? then v.(timer := None, count := 0)
    else v
  }

  /** Whose event it is. */
  predicate IsOwn(st: State, e: Event, s: Id)
    requires Enabled(st, e)
  {
    match e
    case TimerFires(id) => st.armed[id].session == s
    case Lost(r) => r == s
    case Cleared(r) => r == s
    case Connected(r) => r == s
    case Disconnected(r) => r == s
    case ConnectOk(req) => st.requests[req] == s
    case ConnectFails(req, _) => st.requests[req] == s
    case RunFinally(r) => r == s
    case RetryAll => true
    case Profiles(_) => true
    case RunEffect => true
    case Network(_) => false
  }

  /** What an event of its own does to a session. */
  function After(v: SessionView, online: bool, e: Event, s: Id): SessionView {
    match e
    case TimerFires(_) => Tried(v, online)
    case RetryAll => if v.lost then Tried(v, online) else v
    case Lost(_) => v.(lost := true)
    case Cleared(_) => v.(lost := false)
    case Connected(_) => v.(connected := true)
    case Disconnected(_) => v.(connected := false)
    case Profiles(ids) => v.(known := s in ids)
    case Network(_) => v
    case ConnectOk(_) => GivenUp(v).(connected := v.connected || v.lost, connecting := false, settling := true)
    case ConnectFails(_, error) => FailedOnce(v, error)
    case RunFinally(_) => v.(settling := false)
    case RunEffect => Tidied(v)
  }

  // --- Every step of the hook is a step of each session ---

  lemma InFlightIs(st: State, s: Id)
    requires RequestsMatch(st.requests, st.nextRequest, st.inFlight, st.settling)
    ensures s in st.inFlight <==> Connecting(st.requests, s) || s in st.settling
  {
  }

  lemma TimerIs(st: State, s: Id)
    requires TimersMatch(st.timers, st.armed, st.nextTimer)
    ensures View(st, s).timer.Some? <==> s in st.timers
  {
  }

  lemma ClearTimerView(st: State, x: Id, s: Id)
    requires TimersMatch(st.timers, st.armed, st.nextTimer)
    ensures View(ClearTimer(st, x), s) == if x == s then View(st, s).(timer := None) else View(st, s)
    ensures var next := ClearTimer(st, x); st == next.(timers := st.timers, armed := st.armed)
  {
    hide Connecting;
  }

  lemma ArmView(st: State, x: Id, s: Id)
    requires TimersMatch(st.timers, st.armed, st.nextTimer)
    ensures View(Arm(st, x), s) == if x == s then View(st, s).(timer := Some(Delay(AttemptsOf(st, s)))) else View(st, s)
    ensures Arm(st, x).online == st.online
  {
    DelaysAre(AttemptsOf(st, x));
    hide Connecting, DelayMs;
  }

  lemma MoreConnecting(requests: map<nat, Id>, next: nat, x: Id, s: Id)
    requires next !in requests
    ensures Connecting(requests[next := x], s) <==> x == s || Connecting(requests, s)
  {
    var after := requests[next := x];
    assert next in after && after[next] == x;
    if req :| req in requests && requests[req] == s {
      assert req in after && after[req] == s;
    }
  }

  lemma FewerConnecting(requests: map<nat, Id>, req: nat, s: Id)
    ensures Connecting(requests - {req}, s) ==> Connecting(requests, s)
  {
    if r :| r in requests - {req} && (requests - {req})[r] == s {
      assert r in requests && requests[r] == s;
    }
  }

  lemma ConnectView(st: State, x: Id, s: Id)
    requires RequestsMatch(st.requests, st.nextRequest, st.inFlight, st.settling)
    ensures View(Connect(st, x), s) == if x == s then View(st, s).(connecting := true) else View(st, s)
  {
    MoreConnecting(st.requests, st.nextRequest, x, s);
    hide RequestsMatch, Connecting, CountOf, TimerOf;
  }

  lemma FinishView(st: State, x: Id, s: Id)
    ensures View(Finish(st, x), s) == if x == s then GivenUp(View(st, s)) else View(st, s)
    ensures Finish(st, x).online == st.online
  {
    RemoveHas(st.lost, x);
    hide Remove, Connecting, TimerOf;
  }

  lemma AttemptIs(st: State, x: Id)
    ensures var mid := ClearTimer(st, x);
      Attempt(st, x) ==
        if x in st.inFlight || x !in st.lost then mid
        else if x in st.connected || x !in st.profiles then Finish(mid, x)
        else if !st.online then Arm(mid, x)
        else Connect(mid, x)
    ensures ClearTimer(st, x).online == st.online
    ensures Connect(ClearTimer(st, x), x).online == st.online
  {
    hide Finish, Arm;
  }

  lemma AttemptView(st: State, x: Id, s: Id)
    requires Inv(st) && st.settling == {}
    ensures View(Attempt(st, x), s) == if x == s then Tried(View(st, s), st.online) else View(st, s)
    ensures Attempt(st, x).online == st.online
  {
    var mid := ClearTimer(st, x);
    AttemptIs(st, x);
    ClearTimerView(st, x, s);
    ClearedMatch(st, x);
    InFlightIs(st, x);
    ViewFields(st, x);
    hide ClearTimer, Attempt, Connecting, TimersMatch, Finish, Arm, Connect, View, CountOf;
    FinishView(mid, x, s);
    ArmView(mid, x, s);
    hide RequestsMatch;
    ConnectView(mid, x, s);
    hide InvBut;
  }

  lemma ClearedMatch(st: State, x: Id)
    requires Inv(st)
    ensures var mid := ClearTimer(st, x);
      && TimersMatch(mid.timers, mid.armed, mid.nextTimer)
      && RequestsMatch(mid.requests, mid.nextRequest, mid.inFlight, mid.settling)
      && CountOf(mid.attempts, x) == CountOf(st.attempts, x)
  {
    if x in st.timers {
      DropTimer(st.timers, st.armed, st.nextTimer, x);
    }
    hide TimersMatch, RequestsMatch, CountOf;
  }

  lemma ViewFields(st: State, s: Id)
    ensures var v := View(st, s);
      && (v.lost <==> s in st.lost) && (v.connected <==> s in st.connected) && (v.known <==> s in st.profiles)
      && v.count == AttemptsOf(st, s) && (v.connecting <==> Connecting(st.requests, s)) && (v.settling <==> s in st.settling)
  {
    hide Connecting;
  }

  lemma {:induction false} AttemptAllView(st: State, ids: seq<Id>, s: Id)
    requires Inv(st) && st.settling == {} && NoDup(ids)
    ensures View(AttemptAll(st, ids), s) == if s in ids then Tried(View(st, s), st.online) else View(st, s)
    ensures AttemptAll(st, ids).online == st.online
  {
    if ids != [] {
      var n := |ids| - 1;
      assert ids == ids[..n] + [ids[n]] && ids[n] !in ids[..n];
      hide View, Attempt, Inv, NoDup;
      FrontNoDup(ids);
      AttemptAllView(st, ids[..n], s);
      AttemptAllKeeps(st, ids[..n]);
      AttemptView(AttemptAll(st, ids[..n]), ids[n], s);
    }
  }

  lemma FrontNoDup(ids: seq<Id>)
    requires NoDup(ids) && ids != []
    ensures NoDup(ids[..|ids| - 1])
  {
  }

  lemma SettledView(st: State, req: nat, s: Id)
    requires RequestsMatch(st.requests, st.nextRequest, st.inFlight, st.settling) && req in st.requests
    ensures View(Settled(st, req), s) ==
      if st.requests[req] == s then View(st, s).(connecting := false, settling := true) else View(st, s)
  {
    CloseRequest(st.requests, st.nextRequest, st.inFlight, st.settling, req);
    FewerConnecting(st.requests, req, s);
    hide Connecting, RequestsMatch, CountOf, TimerOf;
  }

  lemma ResolvedView(st: State, req: nat, s: Id)
    requires Inv(st) && req in st.requests
    ensures View(Resolved(st, req), s) ==
      if st.requests[req] == s then After(View(st, s), st.online, ConnectOk(req), s) else View(st, s)
  {
    var x := st.requests[req];
    SettledView(st, req, s);
    var mid := Succeed(st, req);
    assert View(mid, s) == View(Settled(st, req), s);
    assert mid.connected == st.connected;
    hide Succeed, Settled, Inv, Connecting, View;
    FinishView(mid, x, s);
    var done := Finish(mid, x);
    AdoptView(done, req, x, s);
    ViewFields(st, s);
    hide Finish, Adopt, HandBack;
  }

  lemma AdoptView(st: State, req: nat, x: Id, s: Id)
    ensures View(Adopt(st, req, x), s) == if x == s then View(st, s).(connected := true) else View(st, s)
    ensures View(HandBack(st, req), s) == View(st, s)
  {
    hide Connecting, CountOf, TimerOf;
  }

  lemma FailedView(st: State, req: nat, s: Id)
    requires Inv(st) && req in st.requests
    ensures var x, mid := st.requests[req], Failed(st, req);
      && View(mid, s) == (if x == s then View(st, s).(connecting := false, settling := true, count := View(st, s).count + 1) else View(st, s))
      && TimersMatch(mid.timers, mid.armed, mid.nextTimer)
      && AttemptsOf(mid, x) == AttemptsOf(st, x) + 1
  {
    SettledView(st, req, s);
    hide Connecting, TimersMatch, TimerOf, Bump;
  }

  lemma RejectedView(st: State, req: nat, error: string, s: Id)
    requires Inv(st) && req in st.requests
    ensures View(Rejected(st, req, error), s) ==
      if st.requests[req] == s then FailedOnce(View(st, s), error) else View(st, s)
  {
    hide IsPermanentText, InvBut, TimersMatch, Connecting, View, Failed, Finish, Arm, CountOf;
    var x, mid := st.requests[req], Failed(st, req);
    FailedView(st, req, s);
    ViewFields(st, s);
    FinishView(mid, x, s);
    ArmView(mid, x, s);
  }

  lemma {:induction false} ArmMissingView(st: State, ids: seq<Id>, s: Id)
    requires Inv(st)
    ensures var v := View(st, s);
      View(ArmMissing(st, ids), s) ==
      if s in ids && v.timer.None? && !v.connecting && !v.settling then v.(timer := Some(Delay(v.count))) else v
  {
    if ids != [] {
      var n := |ids| - 1;
      var before := ArmMissing(st, ids[..n]);
      assert ids == ids[..n] + [ids[n]];
      ArmMissingView(st, ids[..n], s);
      ArmMissingKeeps(st, ids[..n]);
      assert MidEffect(st, before);
      TimerIs(before, s);
      InFlightIs(st, s);
      ArmView(before, ids[n], s);
      ViewFields(before, s);
      hide Inv, View, MidEffect, ArmMissing, Arm, Connecting;
    }
  }

  lemma PruneView(st: State, s: Id)
    requires TimersMatch(st.timers, st.armed, st.nextTimer)
    ensures View(Prune(st), s) ==
      if s in st.timers && s !in st.lost then View(st, s).(timer := None, count := 0) else View(st, s)
  {
    hide Connecting;
  }

  lemma EffectView(st: State, s: Id)
    requires Inv(st)
    ensures View(Effect(st), s) == Tidied(View(st, s))
  {
    var mid := ArmMissing(st, st.lost);
    ArmMissingView(st, st.lost, s);
    ArmMissingKeeps(st, st.lost);
    assert MidEffect(st, mid);
    TimerIs(mid, s);
    TimerIs(st, s);
    PruneView(mid, s);
    ViewFields(st, s);
    assert View(Effect(st), s) == View(Prune(mid), s);
    hide Inv, View, MidEffect, ArmMissing, Prune, Connecting;
  }

  lemma FiringIsAttempt(st: State, id: nat)
    requires Inv(st) && st.settling == {} && id in st.armed
    ensures Step(st, TimerFires(id)) == Attempt(st, st.armed[id].session)
  {
    var s := st.armed[id].session;
    var fired := st.(armed := st.armed - {id});
    assert s in st.timers && st.timers[s] == id;
    assert ClearTimer(fired, s) == ClearTimer(st, s) by {
      assert fired.armed - {id} == st.armed - {id};
    }
    ClearTimerOnce(st, s);
    ClearTimerOnce(fired, s);
    hide InvBut, Attempt;
  }

  lemma LossView(st: State, x: Id, s: Id)
    ensures View(MarkLost(st, x), s) == if x == s then View(st, s).(lost := true) else View(st, s)
    ensures View(ClearLost(st, x), s) == if x == s then View(st, s).(lost := false) else View(st, s)
  {
    RemoveHas(st.lost, x);
    hide Remove, Connecting, CountOf, TimerOf;
  }

  lemma ConnectedView(st: State, x: Id, s: Id)
    ensures View(AddConnected(st, x), s) == if x == s then View(st, s).(connected := true) else View(st, s)
    ensures View(st.(connected := Remove(st.connected, x)), s) == if x == s then View(st, s).(connected := false) else View(st, s)
  {
    RemoveHas(st.connected, x);
    hide Remove, Connecting, CountOf, TimerOf;
  }

  predicate IsAnswer(e: Event) {
    e.TimerFires? || e.RetryAll? || e.ConnectOk? || e.ConnectFails? || e.RunEffect?
  }

  lemma StoreStep(st: State, e: Event, s: Id)
    requires Enabled(st, e) && !IsAnswer(e)
    ensures View(Step(st, e), s) == if IsOwn(st, e, s) then After(View(st, s), st.online, e, s) else View(st, s)
  {
    hide MarkLost, ClearLost, AddConnected, Remove, Connecting, CountOf, TimerOf;
    match e
    case Lost(r) => LossView(st, r, s);
    case Cleared(r) => LossView(st, r, s);
    case Connected(r) => ConnectedView(st, r, s);
    case Disconnected(r) => ConnectedView(st, r, s);
    case _ =>
  }

  /** The projection theorem: an event does to each session what that session's own machine
      says, and nothing to a session it does not concern. */
  lemma StepProjects(st: State, e: Event, s: Id)
    requires Inv(st) && Enabled(st, e)
    ensures View(Step(st, e), s) == if IsOwn(st, e, s) then After(View(st, s), st.online, e, s) else View(st, s)
  {
    assert NoDup(st.lost);
    if !IsAnswer(e) {
      StoreStep(st, e, s);
      hide Step, After, View, IsOwn, Inv;
    } else {
      hide Attempt, AttemptAll, Resolved, Rejected, Effect, IsPermanentText, View, InvBut, NoDup;
      match e
      case TimerFires(id) =>
        FiringIsAttempt(st, id);
        AttemptView(st, st.armed[id].session, s);
      case RetryAll =>
        ViewFields(st, s);
        AttemptAllView(st, st.lost, s);
      case ConnectOk(req) => ResolvedView(st, req, s);
      case ConnectFails(req, error) => RejectedView(st, req, error, s);
      case RunEffect => EffectView(st, s);
    }
  }

  // --- What follows, over runs ---

  lemma OpensWhen(v: SessionView, online: bool, e: Event, s: Id)
    ensures !v.connecting && After(v, online, e, s).connecting
       <==> (e.TimerFires? || e.RetryAll?) && v.lost && !v.connected && v.known && !v.connecting && !v.settling && online
  {
    hide IsPermanentText, Delay;
  }

  /** A connect of a session is opened by its timer or by a general retry, and exactly when the
      session is lost, not connected, has a profile, and is not being connected already, with
      the network on. */
  lemma ConnectsWhenWanted(states: seq<State>, events: seq<Event>, n: nat, s: Id)
    requires IsRun(states, events) && n < |events|
    ensures var before, after := View(states[n], s), View(states[n + 1], s);
      var tried := events[n].RetryAll? || (events[n].TimerFires? && states[n].armed[events[n].id].session == s);
      !before.connecting && after.connecting
      <==> tried && before.lost && !before.connected && before.known && !before.connecting && !before.settling && states[n].online
  {
    RunKeeps(states, events, n);
    StepProjects(states[n], events[n], s);
    OpensWhen(View(states[n], s), states[n].online, events[n], s);
    hide View, Step, Inv, After;
  }

  /** A failed connect of a lost session keeps it lost exactly when the error is not final and it
      is not the tenth failure. Then one timer is armed, with the delay of the new count; else
      there is none, and the count is forgotten. */
  lemma FailureDecides(states: seq<State>, events: seq<Event>, n: nat)
    requires IsRun(states, events) && n < |events| && events[n].ConnectFails?
    requires states[n].requests[events[n].req] in states[n].lost
    ensures var s, error := states[n].requests[events[n].req], events[n].error;
      var count, after := AttemptsOf(states[n], s), states[n + 1];
      && (s in after.lost <==> !IsPermanentText(error) && count < 9)
      && (if s in after.lost then
            AttemptsOf(after, s) == count + 1 && HasOnlyTimer(after, s, Delay(count + 1))
          else AttemptsOf(after, s) == 0 && NoTimer(after, s))
      && !Connecting(after.requests, s)
  {
    var s := states[n].requests[events[n].req];
    RunKeeps(states, events, n);
    RunKeeps(states, events, n + 1);
    StepProjects(states[n], events[n], s);
    assert events[n].req in states[n].requests && Connecting(states[n].requests, s);
    NotTimedWhileConnecting(states[n], events[n].req);
    TimersAre(states[n + 1], s);
    ViewFields(states[n], s);
    ViewFields(states[n + 1], s);
    hide Step, Inv, IsPermanentText, Connecting, View;
  }

  /** `id` is the one timer that the browser holds for the session. */
  ghost predicate IsOnlyTimer(st: State, s: Id, id: nat, delay: nat) {
    && id in st.armed && st.armed[id] == Timer(s, delay)
    && forall other | other in st.armed && st.armed[other].session == s :: other == id
  }

  ghost predicate HasOnlyTimer(st: State, s: Id, delay: nat) {
    exists id :: IsOnlyTimer(st, s, id, delay)
  }

  ghost predicate NoTimer(st: State, s: Id) {
    forall id | id in st.armed :: st.armed[id].session != s
  }

  lemma TimersAre(st: State, s: Id)
    requires Inv(st)
    ensures match View(st, s).timer
      case None => NoTimer(st, s)
      case Some(delay) => HasOnlyTimer(st, s, delay)
  {
    if s in st.timers {
      assert IsOnlyTimer(st, s, st.timers[s], st.armed[st.timers[s]].delayMs);
    }
    hide Connecting;
  }

  lemma NotTimedWhileConnecting(st: State, req: nat)
    requires Inv(st) && req in st.requests
    ensures View(st, st.requests[req]).timer == None
  {
  }

  ghost predicate AtRest(v: SessionView) {
    !v.lost && v.timer.None? && !v.connecting
  }

  lemma RestIsKept(v: SessionView, online: bool, e: Event, s: Id)
    requires AtRest(v) && !e.Lost? && !e.ConnectFails?
    ensures AtRest(After(v, online, e, s))
  {
    hide IsPermanentText, Delay;
  }

  /** A session that is not lost, has no timer and no connect in flight stays so, with no connect
      opened for it, until it is marked lost. */
  lemma {:induction false} StaysAtRest(states: seq<State>, events: seq<Event>, m: nat, n: nat, s: Id)
    requires IsRun(states, events) && m <= n <= |events| && AtRest(View(states[m], s))
    requires forall i | m <= i < n :: events[i] != Lost(s)
    ensures AtRest(View(states[n], s))
  {
    if m < n {
      var st, e := states[n - 1], events[n - 1];
      StaysAtRest(states, events, m, n - 1, s);
      RunKeeps(states, events, n - 1);
      StepProjects(st, e, s);
      if e.ConnectFails? {
        OwnConnecting(st, e.req);
      } else if !e.Lost? {
        RestIsKept(View(st, s), st.online, e, s);
      }
      hide View, Step, Inv, After;
    }
  }

  lemma OwnConnecting(st: State, req: nat)
    requires req in st.requests
    ensures View(st, st.requests[req]).connecting
  {
  }

  /** An error no retry can mend, a host-key challenge for one, ends the episode there and then:
      until the session is marked lost again it has no timer, and no connect is opened for it. */
  lemma FinalErrorEndsRetries(
    states: seq<State>, events: seq<Event>, m: nat, n: nat, req: nat, lower: char -> string, error: string)
    requires IsRun(states, events) && m < n <= |events| && events[m] == ConnectFails(req, Lower(lower, error))
    requires IsPermanentReconnectError(lower, error)
    requires forall i | m < i < n :: events[i] != Lost(states[m].requests[req])
    ensures var s, st := states[m].requests[req], states[n];
      s !in st.lost && NoTimer(st, s) && !Connecting(st.requests, s)
  {
    var s := states[m].requests[req];
    RunKeeps(states, events, m);
    RunKeeps(states, events, n);
    StepProjects(states[m], events[m], s);
    NotTimedWhileConnecting(states[m], req);
    hide View, Step, Inv, IsPermanentText, Lower;
    assert AtRest(View(states[m + 1], s));
    StaysAtRest(states, events, m + 1, n, s);
    TimersAre(states[n], s);
    ViewFields(states[n], s);
    hide Connecting;
  }

  /** So no retry in the background ever meets a host-key prompt twice. */
  lemma ChallengeEndsRetries(
    states: seq<State>, events: seq<Event>, m: nat, n: nat, req: nat, number: string -> Float, lower: char -> string, error: string)
    requires IsRun(states, events) && m < n <= |events| && events[m] == ConnectFails(req, Lower(lower, error))
    requires Lower(lower, UNKNOWN_PREFIX) == "unknown_host_key:" && Lower(lower, CHANGED_PREFIX) == "host_key_changed:"
    requires ParseHostKeyChallenge(number, error).Some?
    requires forall i | m < i < n :: events[i] != Lost(states[m].requests[req])
    ensures var s, st := states[m].requests[req], states[n];
      s !in st.lost && NoTimer(st, s) && !Connecting(st.requests, s)
  {
    ChallengesArePermanent(number, lower, error);
    hide ParseHostKeyChallenge, Lower, IsRun, Connecting;
    FinalErrorEndsRetries(states, events, m, n, req, lower, error);
  }

  /** After the effect a session has a timer only if it is lost, and every lost one that is not
      being connected has. */
  lemma EffectTidies(st: State, s: Id)
    requires Inv(st)
    ensures var after := View(Effect(st), s);
      && (after.timer.Some? ==> after.lost)
      && (after.lost && !after.connecting && !after.settling ==> after.timer.Some?)
  {
    EffectView(st, s);
    hide View, Effect, Inv;
  }
}
