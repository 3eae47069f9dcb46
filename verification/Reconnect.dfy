/** Automatic reconnection (`src/hooks/useAutoReconnect.ts`): timers, retries and
    connects in flight, as steps that may interleave in any order the event loop
    allows. */
module Reconnect {
  import opened PermanentErrors

  type Id = string

  const MAX_ATTEMPTS := 10

  const BACKOFF_SECS := [2, 5, 15, 30, 60]

  function DelayMs(attempt: nat): nat {
    BACKOFF_SECS[if attempt < |BACKOFF_SECS| - 1 then attempt else |BACKOFF_SECS| - 1] * 1000
  }

  /** A timer the browser holds: whose attempt it will call, and after how long. */
  datatype Timer = Timer(session: Id, delayMs: nat)

  /** What became of the connects that succeeded: which did and for which session, those
      whose connection was put on screen, and those the backend was asked to drop again. */
  datatype Log = Log(succeeded: map<nat, Id>, adopted: set<nat>, handedBack: set<nat>)

  /** `lost`, `connected`, `profiles` are the session store's; `attempts`, `timers` and
      `inFlight` are the hook's refs; `armed` and `requests` are what the browser and
      the backend really hold. `settling` are sessions whose result has been handled
      but whose `finally` has not run, and `effectDue` says the scheduling effect has
      yet to see the current `lost`. `failures`, the failing connects of each lost episode,
      and `log` are there for the properties only. */
  datatype State = State(
    lost: seq<Id>,
    connected: seq<Id>,
    profiles: set<Id>,
    online: bool,
    attempts: map<Id, nat>,
    timers: map<Id, nat>,
    inFlight: set<Id>,
    armed: map<nat, Timer>,
    nextTimer: nat,
    requests: map<nat, Id>,
    nextRequest: nat,
    settling: set<Id>,
    effectDue: bool,
    failures: map<Id, nat>,
    log: Log)

  const START := State([], [], {}, true, map[], map[], {}, map[], 0, map[], 0, {}, false, map[], Log(map[], {}, {}))

  function Remove(ids: seq<Id>, s: Id): seq<Id> {
    if ids == [] then []
    else if ids[|ids| - 1] == s then Remove(ids[..|ids| - 1], s)
    else Remove(ids[..|ids| - 1], s) + [ids[|ids| - 1]]
  }

  function CountOf(counts: map<Id, nat>, s: Id): nat {
    if s in counts then counts[s] else 0
  }

  function AttemptsOf(st: State, s: Id): nat {
    CountOf(st.attempts, s)
  }

  // --- Store actions ---

  function MarkLost(st: State, s: Id): State {
    if s in st.lost then st
    else st.(lost := st.lost + [s], effectDue := true, failures := st.failures[s := 0])
  }

  function ClearLost(st: State, s: Id): State {
    if s !in st.lost then st
    else st.(lost := Remove(st.lost, s), effectDue := true, failures := st.failures - {s})
  }

  function AddConnected(st: State, s: Id): State {
    if s in st.connected then st else st.(connected := st.connected + [s])
  }

  // --- The hook ---

  function ClearTimer(st: State, s: Id): State {
    if s in st.timers then st.(armed := st.armed - {st.timers[s]}, timers := st.timers - {s}) else st
  }

  /** `setTimeout` for the next attempt, remembered in `timers`. */
  function Arm(st: State, s: Id): State {
    st.(timers := st.timers[s := st.nextTimer],
        armed := st.armed[st.nextTimer := Timer(s, DelayMs(AttemptsOf(st, s)))],
        nextTimer := st.nextTimer + 1)
  }

  function Finish(st: State, s: Id): State {
    ClearLost(st.(attempts := st.attempts - {s}), s)
  }

  function Attempt(st0: State, s: Id): State {
    var st := ClearTimer(st0, s);
    if s in st.inFlight then st
    else if s !in st.lost then st
    else if s in st.connected || s !in st.profiles then Finish(st, s)
    else if !st.online then Arm(st, s)
    else Connect(st, s)
  }

  /** `connect_terminal`. */
  function Connect(st: State, s: Id): State {
    st.(inFlight := st.inFlight + {s}, requests := st.requests[st.nextRequest := s], nextRequest := st.nextRequest + 1)
  }

  function AttemptAll(st: State, ids: seq<Id>): State {
    if ids == [] then st else Attempt(AttemptAll(st, ids[..|ids| - 1]), ids[|ids| - 1])
  }

  /** The bookkeeping common to both outcomes of a connect. */
  function Settled(st: State, req: nat): State
    requires req in st.requests
  {
    st.(requests := st.requests - {req}, settling := st.settling + {st.requests[req]})
  }

  function Succeed(st: State, req: nat): State
    requires req in st.requests
  {
    Settled(st, req).(log := st.log.(succeeded := st.log.succeeded[req := st.requests[req]]))
  }

  /** `addConnectedSession` with the connection that `req` brought. */
  function Adopt(st: State, req: nat, s: Id): State {
    AddConnected(st, s).(log := st.log.(adopted := st.log.adopted + {req}))
  }

  /** `disconnect_terminal` for it. */
  function HandBack(st: State, req: nat): State {
    st.(log := st.log.(handedBack := st.log.handedBack + {req}))
  }

  /** A connect that succeeded is adopted if the session is still wanted, and handed back if
      not. */
  function Resolved(st0: State, req: nat): State
    requires req in st0.requests
  {
    var s := st0.requests[req];
    var st := Finish(Succeed(st0, req), s);
    if s in st0.lost then Adopt(st, req, s) else HandBack(st, req)
  }

  /** A failure counts, for the hook and for the episode it falls in. */
  function Failed(st: State, req: nat): State
    requires req in st.requests
  {
    var s := st.requests[req];
    Settled(st, req).(
      attempts := st.attempts[s := AttemptsOf(st, s) + 1],
      failures := Bump(st.failures, s))
  }

  function Bump(failures: map<Id, nat>, s: Id): map<Id, nat> {
    if s in failures then failures[s := failures[s] + 1] else failures
  }

  /** `error` is the error in lower case. */
  function Rejected(st0: State, req: nat, error: string): State
    requires req in st0.requests
  {
    var s := st0.requests[req];
    var st := Failed(st0, req);
    if IsPermanentText(error) || AttemptsOf(st0, s) + 1 >= MAX_ATTEMPTS then Finish(st, s) else Arm(st, s)
  }

  function Finally(st: State, s: Id): State {
    st.(inFlight := st.inFlight - {s}, settling := st.settling - {s})
  }

  function ArmMissing(st: State, ids: seq<Id>): State {
    if ids == [] then st
    else
      var before := ArmMissing(st, ids[..|ids| - 1]);
      var s := ids[|ids| - 1];
      if s !in before.timers && s !in before.inFlight then Arm(before, s) else before
  }

  /** Forgets the timers and counts of sessions that are no longer lost. */
  function Prune(st: State): State {
    var gone := set s | s in st.timers && s !in st.lost;
    st.(timers := st.timers - gone, armed := st.armed - TimersOf(st.timers, gone), attempts := st.attempts - gone)
  }

  function TimersOf(timers: map<Id, nat>, ids: set<Id>): set<nat>
    requires ids <= timers.Keys
  {
    set s | s in ids :: timers[s]
  }

  function Effect(st: State): State {
    Prune(ArmMissing(st, st.lost)).(effectDue := false)
  }

  // --- Events ---

  datatype Event =
    | TimerFires(id: nat)
    | RetryAll
    | Lost(s: Id)
    | Cleared(s: Id)
    | Connected(s: Id)
    | Disconnected(s: Id)
    | Profiles(ids: set<Id>)
    | Network(online: bool)
    | ConnectOk(req: nat)
    | ConnectFails(req: nat, error: string)
    | RunFinally(s: Id)
    | RunEffect

  /** A result handler and its `finally` are consecutive microtasks: nothing but effects
      and other such handlers can come between them. */
  predicate Enabled(st: State, e: Event) {
    match e
    case RunFinally(s) => s in st.settling
    case RunEffect => st.effectDue
    case ConnectOk(req) => req in st.requests
    case ConnectFails(req, _) => req in st.requests
    case TimerFires(id) => id in st.armed && st.settling == {}
    case _ => st.settling == {}
  }

  function Step(st: State, e: Event): State
    requires Enabled(st, e)
  {
    match e
    case TimerFires(id) => Attempt(st.(armed := st.armed - {id}), st.armed[id].session)
    case RetryAll => AttemptAll(st, st.lost)
    case Lost(s) => MarkLost(st, s)
    case Cleared(s) => ClearLost(st, s)
    case Connected(s) => AddConnected(st, s)
    case Disconnected(s) => st.(connected := Remove(st.connected, s))
    case Profiles(ids) => st.(profiles := ids)
    case Network(online) => st.(online := online)
    case ConnectOk(req) => Resolved(st, req)
    case ConnectFails(req, error) => Rejected(st, req, error)
    case RunFinally(s) => Finally(st, s)
    case RunEffect => Effect(st)
  }

  // --- The invariant, one part per concern ---

  ghost predicate NoDup(ids: seq<Id>) {
    forall i, j | 0 <= i < j < |ids| :: ids[i] != ids[j]
  }

  /** Some connect for `s` is in flight. */
  ghost predicate Connecting(requests: map<nat, Id>, s: Id) {
    exists req :: req in requests && requests[req] == s
  }

  /** The map and the browser hold the same timers: none is armed twice or lost. */
  ghost predicate TimersMatch(timers: map<Id, nat>, armed: map<nat, Timer>, nextTimer: nat) {
    && (forall s | s in timers :: timers[s] in armed && armed[timers[s]].session == s)
    && (forall id | id in armed :: armed[id].session in timers && timers[armed[id].session] == id)
    && (forall id | id in armed :: id < nextTimer && 2000 <= armed[id].delayMs <= 60000)
  }

  /** `inFlight` are the sessions being connected and those still settling. */
  ghost predicate RequestsMatch(requests: map<nat, Id>, nextRequest: nat, inFlight: set<Id>, settling: set<Id>) {
    && (forall a, b | a in requests && b in requests && a != b :: requests[a] != requests[b])
    && (forall req | req in requests :: req < nextRequest && requests[req] in inFlight && requests[req] !in settling)
    && (forall s | s in inFlight :: s in settling || Connecting(requests, s))
    && settling <= inFlight
  }

  ghost predicate NotTimed(requests: map<nat, Id>, timers: map<Id, nat>) {
    forall req | req in requests :: requests[req] !in timers
  }

  ghost predicate AttemptsBelow(attempts: map<Id, nat>, except: set<Id>) {
    forall s | s in attempts && s !in except :: attempts[s] < MAX_ATTEMPTS
  }

  /** An episode's failures never exceed the count the hook keeps. */
  ghost predicate FailuresCounted(lost: seq<Id>, attempts: map<Id, nat>, failures: map<Id, nat>) {
    && (forall s :: s in failures <==> s in lost)
    && (forall s | s in failures :: failures[s] <= CountOf(attempts, s))
  }

  ghost predicate NoneForgotten(
    lost: seq<Id>, timers: map<Id, nat>, requests: map<nat, Id>, settling: set<Id>, effectDue: bool, except: set<Id>)
  {
    && (forall s | s in settling && s in lost && s !in except :: s in timers)
    && (!effectDue ==> forall s | s in lost && s !in except :: s in timers || Connecting(requests, s))
  }

  /** The invariant, with the sessions in `except` in the middle of being handled. */
  ghost predicate InvBut(st: State, except: set<Id>) {
    && NoDup(st.lost)
    && TimersMatch(st.timers, st.armed, st.nextTimer)
    && RequestsMatch(st.requests, st.nextRequest, st.inFlight, st.settling)
    && NotTimed(st.requests, st.timers)
    && AttemptsBelow(st.attempts, except)
    && FailuresCounted(st.lost, st.attempts, st.failures)
    && NoneForgotten(st.lost, st.timers, st.requests, st.settling, st.effectDue, except)
  }

  ghost predicate Inv(st: State) {
    InvBut(st, {})
  }

  // --- The pieces each step is made of ---

  lemma {:induction false} RemoveHas(ids: seq<Id>, s: Id)
    ensures forall x :: x in Remove(ids, s) <==> x in ids && x != s
    ensures NoDup(ids) ==> NoDup(Remove(ids, s))
  {
    if ids != [] {
      var n := |ids| - 1;
      assert ids == ids[..n] + [ids[n]];
      RemoveHas(ids[..n], s);
      if NoDup(ids) {
        assert ids[n] !in ids[..n];
      }
    }
  }

  lemma DropTimer(timers: map<Id, nat>, armed: map<nat, Timer>, nextTimer: nat, s: Id)
    requires TimersMatch(timers, armed, nextTimer) && s in timers
    ensures TimersMatch(timers - {s}, armed - {timers[s]}, nextTimer)
  {
  }

  lemma DelayBounds(attempt: nat)
    ensures 2000 <= DelayMs(attempt) <= DelayMs(attempt + 1) <= 60000
  {
  }

  lemma AddTimer(timers: map<Id, nat>, armed: map<nat, Timer>, nextTimer: nat, s: Id, attempt: nat)
    requires TimersMatch(timers, armed, nextTimer) && s !in timers
    ensures TimersMatch(timers[s := nextTimer], armed[nextTimer := Timer(s, DelayMs(attempt))], nextTimer + 1)
  {
    DelayBounds(attempt);
  }

  lemma OpenRequest(requests: map<nat, Id>, nextRequest: nat, inFlight: set<Id>, settling: set<Id>, s: Id)
    requires RequestsMatch(requests, nextRequest, inFlight, settling) && s !in inFlight
    ensures RequestsMatch(requests[nextRequest := s], nextRequest + 1, inFlight + {s}, settling)
    ensures Connecting(requests[nextRequest := s], s)
    ensures forall x :: Connecting(requests, x) ==> Connecting(requests[nextRequest := s], x)
  {
    var next := requests[nextRequest := s];
    assert nextRequest in next && next[nextRequest] == s;
    forall x | Connecting(requests, x)
      ensures Connecting(next, x)
    {
      var req :| req in requests && requests[req] == x;
      assert req in next && next[req] == x;
    }
  }

  lemma CloseRequest(requests: map<nat, Id>, nextRequest: nat, inFlight: set<Id>, settling: set<Id>, req: nat)
    requires RequestsMatch(requests, nextRequest, inFlight, settling) && req in requests
    ensures RequestsMatch(requests - {req}, nextRequest, inFlight, settling + {requests[req]})
    ensures !Connecting(requests - {req}, requests[req])
    ensures forall x :: x != requests[req] && Connecting(requests, x) ==> Connecting(requests - {req}, x)
  {
    var next := requests - {req};
    forall x | x != requests[req] && Connecting(requests, x)
      ensures Connecting(next, x)
    {
      var r :| r in requests && requests[r] == x;
      assert r in next && next[r] == x;
    }
  }

  lemma SettleRequest(requests: map<nat, Id>, nextRequest: nat, inFlight: set<Id>, settling: set<Id>, s: Id)
    requires RequestsMatch(requests, nextRequest, inFlight, settling) && s in settling
    ensures RequestsMatch(requests, nextRequest, inFlight - {s}, settling - {s})
  {
  }

  // --- Each step keeps the invariant ---

  lemma ClearTimerKeeps(st: State, s: Id)
    requires Inv(st)
    ensures InvBut(ClearTimer(st, s), {s}) && s !in ClearTimer(st, s).timers
  {
    hide TimersMatch, RequestsMatch, NoDup, FailuresCounted, Connecting;
    if s in st.timers {
      DropTimer(st.timers, st.armed, st.nextTimer, s);
    }
  }

  lemma ArmKeeps(st: State, s: Id)
    requires InvBut(st, {s}) && s !in st.timers && !Connecting(st.requests, s) && AttemptsBelow(st.attempts, {})
    ensures Inv(Arm(st, s)) && Arm(st, s).settling == st.settling
  {
    AddTimer(st.timers, st.armed, st.nextTimer, s, AttemptsOf(st, s));
    NotConnecting(st.requests, s);
    hide TimersMatch, RequestsMatch, NoDup, FailuresCounted, Connecting, AttemptsBelow;
  }

  lemma NotConnecting(requests: map<nat, Id>, s: Id)
    requires !Connecting(requests, s)
    ensures forall req | req in requests :: requests[req] != s
  {
  }

  lemma FinishKeeps(st: State, s: Id)
    requires InvBut(st, {s})
    ensures Inv(Finish(st, s))
    ensures s !in Finish(st, s).lost
  {
    RemoveHas(st.lost, s);
    hide TimersMatch, RequestsMatch, NoDup, Connecting, NotTimed, Remove;
  }

  lemma ClearKeeps(st: State, s: Id)
    requires Inv(st)
    ensures Inv(ClearLost(st, s))
  {
    RemoveHas(st.lost, s);
    hide TimersMatch, RequestsMatch, NoDup, Connecting, NotTimed, AttemptsBelow, Remove;
  }

  lemma MarkKeeps(st: State, s: Id)
    requires Inv(st) && st.settling == {}
    ensures Inv(MarkLost(st, s))
  {
    hide TimersMatch, RequestsMatch, Connecting, NotTimed, AttemptsBelow;
  }

  /** The body of an attempt, after its timer is gone. */
  lemma AttemptRest(st: State, s: Id)
    requires InvBut(st, {s}) && s !in st.timers && st.settling == {} && AttemptsBelow(st.attempts, {})
    ensures Inv(Attempt(st, s)) && Attempt(st, s).settling == {}
  {
    hide TimersMatch, RequestsMatch, NoDup, FailuresCounted, Connecting, AttemptsBelow, NotTimed, Remove, Arm;
    if s in st.inFlight || s !in st.lost {
      InFlightConnecting(st, s);
    } else if s in st.connected || s !in st.profiles {
      FinishKeeps(st, s);
    } else if !st.online {
      NotInFlight(st, s);
      ArmKeeps(st, s);
    } else {
      OpenKeeps(st, s);
    }
  }

  lemma OpenKeeps(st: State, s: Id)
    requires InvBut(st, {s}) && s !in st.timers && s !in st.inFlight && AttemptsBelow(st.attempts, {})
    requires st.settling == {}
    ensures Inv(st.(inFlight := st.inFlight + {s}, requests := st.requests[st.nextRequest := s], nextRequest := st.nextRequest + 1))
  {
    hide TimersMatch, RequestsMatch, NoDup, FailuresCounted, Connecting, AttemptsBelow;
    OpenRequest(st.requests, st.nextRequest, st.inFlight, st.settling, s);
  }

  lemma InFlightConnecting(st: State, s: Id)
    requires RequestsMatch(st.requests, st.nextRequest, st.inFlight, st.settling) && st.settling == {}
    ensures s in st.inFlight ==> Connecting(st.requests, s)
  {
  }

  lemma NotInFlight(st: State, s: Id)
    requires RequestsMatch(st.requests, st.nextRequest, st.inFlight, st.settling) && s !in st.inFlight
    ensures !Connecting(st.requests, s)
  {
  }

  lemma AttemptKeeps(st: State, s: Id)
    requires Inv(st) && st.settling == {}
    ensures Inv(Attempt(st, s)) && Attempt(st, s).settling == {}
  {
    ClearTimerKeeps(st, s);
    AttemptRest(ClearTimer(st, s), s);
    ClearTimerOnce(st, s);
    hide InvBut;
  }

  lemma ClearTimerOnce(st: State, s: Id)
    ensures Attempt(st, s) == Attempt(ClearTimer(st, s), s)
  {
    hide Finish, Arm;
  }

  lemma {:induction false} AttemptAllKeeps(st: State, ids: seq<Id>)
    requires Inv(st) && st.settling == {}
    ensures Inv(AttemptAll(st, ids)) && AttemptAll(st, ids).settling == {}
  {
    hide InvBut, Attempt;
    if ids != [] {
      AttemptAllKeeps(st, ids[..|ids| - 1]);
      AttemptKeeps(AttemptAll(st, ids[..|ids| - 1]), ids[|ids| - 1]);
    }
  }

  /** A timer that fires has left the browser before its attempt takes it off the map. */
  lemma TimerFiresKeeps(st: State, id: nat)
    requires Inv(st) && st.settling == {} && id in st.armed
    ensures Inv(Step(st, TimerFires(id)))
  {
    var s := st.armed[id].session;
    var fired := st.(armed := st.armed - {id});
    assert s in st.timers && st.timers[s] == id;
    AttemptKeeps(st, s);
    assert ClearTimer(fired, s) == ClearTimer(st, s) by {
      assert fired.armed - {id} == st.armed - {id};
    }
    ClearTimerOnce(st, s);
    ClearTimerOnce(fired, s);
    hide InvBut, Attempt;
  }

  lemma SettledKeeps(st: State, req: nat)
    requires Inv(st) && req in st.requests
    ensures var s := st.requests[req];
      && InvBut(Settled(st, req), {s}) && AttemptsBelow(st.attempts, {})
      && s !in st.timers && !Connecting(st.requests - {req}, s)
  {
    CloseRequest(st.requests, st.nextRequest, st.inFlight, st.settling, req);
    hide TimersMatch, RequestsMatch, NoDup, FailuresCounted, Connecting;
  }

  lemma ResolvedKeeps(st: State, req: nat)
    requires Inv(st) && req in st.requests
    ensures Inv(Resolved(st, req))
  {
    hide TimersMatch, RequestsMatch, NoDup, FailuresCounted, NotTimed, AttemptsBelow, NoneForgotten, Finish;
    var s := st.requests[req];
    SettledKeeps(st, req);
    FinishKeeps(Succeed(st, req), s);
  }

  lemma RejectedKeeps(st: State, req: nat, error: string)
    requires Inv(st) && req in st.requests
    ensures Inv(Rejected(st, req, error))
  {
    hide TimersMatch, RequestsMatch, NoDup, FailuresCounted, Connecting, NotTimed, AttemptsBelow, NoneForgotten, Finish, Arm;
    var s := st.requests[req];
    SettledKeeps(st, req);
    var attempt := AttemptsOf(st, s) + 1;
    var mid := Failed(st, req);
    CountFailure(st.lost, st.attempts, st.failures, s);
    BumpAttempts(st.attempts, s, attempt);
    hide IsPermanentText;
    if IsPermanentText(error) || attempt >= MAX_ATTEMPTS {
      assert InvBut(mid, {s});
      FinishKeeps(mid, s);
    } else {
      assert InvBut(mid, {s}) && AttemptsBelow(mid.attempts, {});
      ArmKeeps(mid, s);
    }
  }

  lemma BumpAttempts(attempts: map<Id, nat>, s: Id, attempt: nat)
    requires AttemptsBelow(attempts, {})
    ensures AttemptsBelow(attempts[s := attempt], {s})
    ensures attempt < MAX_ATTEMPTS ==> AttemptsBelow(attempts[s := attempt], {})
  {
  }

  lemma CountFailure(lost: seq<Id>, attempts: map<Id, nat>, failures: map<Id, nat>, s: Id)
    requires FailuresCounted(lost, attempts, failures)
    ensures FailuresCounted(lost, attempts[s := CountOf(attempts, s) + 1],
                            Bump(failures, s))
  {
  }

  lemma FinallyKeeps(st: State, s: Id)
    requires Inv(st) && s in st.settling
    ensures Inv(Finally(st, s))
  {
    SettleRequest(st.requests, st.nextRequest, st.inFlight, st.settling, s);
    hide TimersMatch, RequestsMatch, NoDup, FailuresCounted, Connecting, NotTimed, AttemptsBelow;
  }

  /** The part of the invariant that the effect's first loop keeps at each session. */
  ghost predicate MidEffect(st0: State, st: State) {
    && TimersMatch(st.timers, st.armed, st.nextTimer)
    && NotTimed(st.requests, st.timers)
    && st == st0.(timers := st.timers, armed := st.armed, nextTimer := st.nextTimer)
    && st0.timers.Keys <= st.timers.Keys
  }

  /** After the first loop of the effect every lost session is looked after. */
  lemma {:induction false} ArmMissingKeeps(st: State, ids: seq<Id>)
    requires Inv(st)
    ensures MidEffect(st, ArmMissing(st, ids))
    ensures forall s | s in ids && s in st.lost :: s in ArmMissing(st, ids).timers || Connecting(st.requests, s)
  {
    hide RequestsMatch, NoDup, FailuresCounted, Connecting, AttemptsBelow;
    if ids != [] {
      hide MidEffect, Arm, InvBut, TimersMatch, NotTimed, NoneForgotten;
      var n := |ids| - 1;
      ArmMissingKeeps(st, ids[..n]);
      assert ids == ids[..n] + [ids[n]];
      ArmOne(st, ArmMissing(st, ids[..n]), ids[n]);
    }
  }

  lemma ArmOne(st: State, before: State, s: Id)
    requires Inv(st) && MidEffect(st, before)
    ensures var next := if s !in before.timers && s !in before.inFlight then Arm(before, s) else before;
      && MidEffect(st, next) && before.timers.Keys <= next.timers.Keys
      && (s in st.lost ==> s in next.timers || Connecting(st.requests, s))
  {
    if s !in before.timers && s !in before.inFlight {
      AddTimer(before.timers, before.armed, before.nextTimer, s, AttemptsOf(before, s));
      NotInFlight(st, s);
      NotConnecting(st.requests, s);
    } else if s in st.inFlight && s !in st.settling {
      InFlightNotSettling(st, s);
    }
    hide TimersMatch, RequestsMatch, NoDup, FailuresCounted, Connecting, AttemptsBelow;
  }

  lemma InFlightNotSettling(st: State, s: Id)
    requires RequestsMatch(st.requests, st.nextRequest, st.inFlight, st.settling) && s in st.inFlight && s !in st.settling
    ensures Connecting(st.requests, s)
  {
  }

  lemma PruneTimers(st: State)
    requires TimersMatch(st.timers, st.armed, st.nextTimer)
    ensures TimersMatch(Prune(st).timers, Prune(st).armed, Prune(st).nextTimer)
  {
  }

  lemma EffectKeeps(st: State)
    requires Inv(st)
    ensures Inv(Effect(st))
  {
    hide TimersMatch, RequestsMatch, NoDup, Connecting, ArmMissing;
    ArmMissingKeeps(st, st.lost);
    PruneTimers(ArmMissing(st, st.lost));
  }

  lemma StepKeeps(st: State, e: Event)
    requires Inv(st) && Enabled(st, e)
    ensures Inv(Step(st, e))
  {
    hide Attempt, AttemptAll, Resolved, Rejected, Effect, Finally, MarkLost, ClearLost;
    hide TimersMatch, RequestsMatch, NoDup, FailuresCounted, Connecting, NotTimed, AttemptsBelow, NoneForgotten;
    match e
    case TimerFires(id) => TimerFiresKeeps(st, id);
    case RetryAll => AttemptAllKeeps(st, st.lost);
    case Lost(s) => MarkKeeps(st, s);
    case Cleared(s) => ClearKeeps(st, s);
    case ConnectOk(req) => ResolvedKeeps(st, req);
    case ConnectFails(req, error) => RejectedKeeps(st, req, error);
    case RunFinally(s) => FinallyKeeps(st, s);
    case RunEffect => EffectKeeps(st);
    case _ =>
  }

  // --- Whole runs ---

  ghost predicate IsRun(states: seq<State>, events: seq<Event>) {
    && |states| == |events| + 1
    && states[0].(profiles := {}, online := true, connected := []) == START
    && forall i | 0 <= i < |events| :: Enabled(states[i], events[i]) && states[i + 1] == Step(states[i], events[i])
  }

  /** Every interleaving keeps the invariant. */
  lemma {:induction false} RunKeeps(states: seq<State>, events: seq<Event>, n: nat)
    requires IsRun(states, events) && n < |states|
    ensures Inv(states[n])
  {
    if n > 0 {
      RunKeeps(states, events, n - 1);
      StepKeeps(states[n - 1], events[n - 1]);
    }
  }

  // --- What becomes of a success ---

  /** Each connect that succeeded was adopted or handed back, and not both. */
  ghost predicate LogOk(st: State) {
    && st.log.adopted + st.log.handedBack == st.log.succeeded.Keys && st.log.adopted !! st.log.handedBack
    && forall req | req in st.log.succeeded :: req < st.nextRequest && req !in st.requests
  }

  /** Nothing was answered on the way from `st` to `next`. */
  ghost predicate Unanswered(st: State, next: State) {
    && next.log == st.log && st.nextRequest <= next.nextRequest
    && forall req | req in next.requests :: req >= st.nextRequest || (req in st.requests && next.requests[req] == st.requests[req])
  }

  /** No connect was begun or answered. */
  ghost predicate Quiet(st: State, next: State) {
    next.log == st.log && next.nextRequest == st.nextRequest && next.requests == st.requests
  }

  lemma PiecesAreQuiet(st: State, s: Id)
    ensures Quiet(st, ClearTimer(st, s)) && Quiet(st, Finish(st, s)) && Quiet(st, Arm(st, s))
  {
    hide Remove, DelayMs;
  }

  lemma AttemptUnanswered(st0: State, s: Id)
    ensures Unanswered(st0, Attempt(st0, s))
  {
    var st := ClearTimer(st0, s);
    PiecesAreQuiet(st0, s);
    PiecesAreQuiet(st, s);
    hide ClearTimer, Finish, Arm;
  }

  lemma {:induction false} AttemptAllUnanswered(st: State, ids: seq<Id>)
    ensures Unanswered(st, AttemptAll(st, ids))
  {
    hide Attempt;
    if ids != [] {
      AttemptAllUnanswered(st, ids[..|ids| - 1]);
      AttemptUnanswered(AttemptAll(st, ids[..|ids| - 1]), ids[|ids| - 1]);
    }
  }

  lemma {:induction false} ArmMissingUnanswered(st: State, ids: seq<Id>)
    ensures Unanswered(st, ArmMissing(st, ids))
  {
    if ids != [] {
      ArmMissingUnanswered(st, ids[..|ids| - 1]);
    }
  }

  lemma PruneUnanswered(st: State)
    ensures Unanswered(st, Prune(st))
  {
  }

  lemma RejectedUnanswered(st: State, req: nat, error: string)
    requires req in st.requests
    ensures Unanswered(st, Rejected(st, req, error))
  {
    var s, failed := st.requests[req], Failed(st, req);
    assert failed.log == st.log && failed.nextRequest == st.nextRequest && failed.requests == st.requests - {req};
    PiecesAreQuiet(failed, s);
    hide Failed, Finish, Arm;
  }

  lemma StoreIsQuiet(st: State, s: Id)
    ensures Quiet(st, MarkLost(st, s)) && Quiet(st, ClearLost(st, s)) && Quiet(st, AddConnected(st, s))
  {
    hide Remove;
  }

  lemma FinallyUnanswered(st: State, s: Id)
    ensures Unanswered(st, Finally(st, s))
  {
  }

  /** Only a success is adopted or handed back. */
  lemma OnlySuccessesAreLogged(st: State, e: Event)
    requires Enabled(st, e) && !e.ConnectOk?
    ensures Unanswered(st, Step(st, e))
  {
    hide Attempt, AttemptAll, ArmMissing, Prune, Rejected, Finally, Remove, MarkLost, ClearLost, AddConnected;
    match e
    case TimerFires(id) => AttemptUnanswered(st.(armed := st.armed - {id}), st.armed[id].session);
    case RetryAll => AttemptAllUnanswered(st, st.lost);
    case ConnectFails(req, error) => RejectedUnanswered(st, req, error);
    case RunFinally(s) => FinallyUnanswered(st, s);
    case Lost(s) => StoreIsQuiet(st, s);
    case Cleared(s) => StoreIsQuiet(st, s);
    case Connected(s) => StoreIsQuiet(st, s);
    case RunEffect =>
      ArmMissingUnanswered(st, st.lost);
      PruneUnanswered(ArmMissing(st, st.lost));
    case _ =>
  }

  lemma {:induction false} RunLogs(states: seq<State>, events: seq<Event>, n: nat)
    requires IsRun(states, events) && n < |states|
    ensures LogOk(states[n])
  {
    if n > 0 {
      RunKeeps(states, events, n - 1);
      RunLogs(states, events, n - 1);
      LogKeeps(states[n - 1], events[n - 1]);
    }
  }

  lemma LogKeeps(st: State, e: Event)
    requires Inv(st) && LogOk(st) && Enabled(st, e)
    ensures LogOk(Step(st, e))
  {
    if e.ConnectOk? {
      RequestsAreOld(st, e.req);
      ResolvedLog(st, e.req);
      hide Resolved, Inv, RequestsMatch;
    } else {
      OnlySuccessesAreLogged(st, e);
      hide Step;
    }
  }

  lemma RequestsAreOld(st: State, req: nat)
    requires RequestsMatch(st.requests, st.nextRequest, st.inFlight, st.settling) && req in st.requests
    ensures req < st.nextRequest
  {
  }

  lemma ResolvedLog(st: State, req: nat)
    requires req in st.requests
    ensures var next, s := Resolved(st, req), st.requests[req];
      && next.requests == st.requests - {req} && next.nextRequest == st.nextRequest
      && next.log.succeeded == st.log.succeeded[req := s]
      && next.log.adopted == (if s in st.lost then st.log.adopted + {req} else st.log.adopted)
      && next.log.handedBack == (if s in st.lost then st.log.handedBack else st.log.handedBack + {req})
  {
    var s, mid := st.requests[req], Succeed(st, req);
    assert mid.requests == st.requests - {req} && mid.nextRequest == st.nextRequest;
    assert mid.log == st.log.(succeeded := st.log.succeeded[req := s]);
    PiecesAreQuiet(mid, s);
    hide Succeed, Finish;
  }

  /** What the invariant means: one connect at a time per session, every armed timer on the
      map, after the effect every lost session has a timer or a connect in flight, and each
      connect that succeeded was either adopted or handed back. */
  lemma AtMostOneConnect(states: seq<State>, events: seq<Event>, n: nat)
    requires IsRun(states, events) && n < |states|
    ensures var st := states[n];
      && (forall a, b | a in st.requests && b in st.requests && a != b :: st.requests[a] != st.requests[b])
      && (forall id | id in st.armed :: st.armed[id].session in st.timers && st.timers[st.armed[id].session] == id)
      && (!st.effectDue ==> forall s | s in st.lost :: s in st.timers || Connecting(st.requests, s))
      && (forall req | req in st.log.succeeded :: (req in st.log.adopted) != (req in st.log.handedBack))
  {
    RunKeeps(states, events, n);
    RunLogs(states, events, n);
    assert forall req | req in states[n].log.succeeded :: req in states[n].log.adopted + states[n].log.handedBack;
  }

  /** A connect that succeeds is adopted exactly when its session is still lost: the session
      is then connected, and no other comes or goes. If it is not, nothing is put on screen
      and the connection is handed back. Either way the session is no longer lost. */
  lemma SuccessIsAdoptedOrHandedBack(states: seq<State>, events: seq<Event>, n: nat)
    requires IsRun(states, events) && n < |events| && events[n].ConnectOk?
    ensures var before, after, req := states[n], states[n + 1], events[n].req;
      var s := before.requests[req];
      && req !in before.log.succeeded && req in after.log.succeeded
      && (req in after.log.adopted <==> s in before.lost)
      && (req in after.log.handedBack <==> s !in before.lost)
      && (forall x :: x in after.connected <==> x in before.connected || (x == s && s in before.lost))
      && (forall x :: x in after.lost <==> x in before.lost && x != s)
  {
    var before, req := states[n], events[n].req;
    RunLogs(states, events, n);
    ResolvedLog(before, req);
    RemoveHas(before.lost, before.requests[req]);
    ResolvedStore(before, req);
    hide Resolved, Remove;
  }

  lemma ResolvedStore(st: State, req: nat)
    requires req in st.requests
    ensures var next, s := Resolved(st, req), st.requests[req];
      && next.connected == (if s in st.lost && s !in st.connected then st.connected + [s] else st.connected)
      && next.lost == (if s in st.lost then Remove(st.lost, s) else st.lost)
  {
    var s, mid := st.requests[req], Succeed(st, req);
    assert mid.lost == st.lost && mid.connected == st.connected;
    hide Succeed, Remove;
  }

  /** The failing connects of one lost episode never exceed ten: the count at rest stays
      below it, and the failure that would reach it ends the episode. */
  lemma AtMostTenFailures(states: seq<State>, events: seq<Event>, n: nat)
    requires IsRun(states, events) && n < |events| && events[n].ConnectFails?
    requires states[n].requests[events[n].req] in states[n].lost
    ensures var s := states[n].requests[events[n].req];
      && s in states[n].failures && states[n].failures[s] + 1 <= MAX_ATTEMPTS
      && (states[n].failures[s] + 1 == MAX_ATTEMPTS ==> s !in states[n + 1].lost)
  {
    RunKeeps(states, events, n);
    RemoveHas(states[n].lost, states[n].requests[events[n].req]);
  }
}
