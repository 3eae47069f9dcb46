/** The reconnect hook with the terminals the backend really holds
    (`src-tauri/src/ssh/terminal.rs`): connecting a session stops every terminal it has, and
    so does `disconnect_terminal`, which is given a session and not a connection. */
module ReconnectBackend {
  import R = Reconnect

  type Id = R.Id

  /** The open terminals and their sessions; `next` has never been used. */
  datatype Backend = Backend(live: map<nat, Id>, next: nat)

  function Others(live: map<nat, Id>, s: Id): map<nat, Id> {
    map t | t in live && live[t] != s :: live[t]
  }

  /** The end of `connect_terminal`: a new terminal instead of all there were. */
  function Register(b: Backend, s: Id): Backend {
    Backend(Others(b.live, s)[b.next := s], b.next + 1)
  }

  function Split(b: Backend, s: Id): Backend {
    Backend(b.live[b.next := s], b.next + 1)
  }

  /** `registered` are the hook's connects that have got their terminal, with their session. */
  datatype World = World(hook: R.State, backend: Backend, registered: map<nat, Id>)

  /** What the user's own connects and splits register, the hook's events, and the
      `disconnect_terminal` of a connect handed back, which arrives after it was sent. */
  datatype Event =
    | Hook(e: R.Event)
    | Registered(req: nat)
    | UserRegistered(s: Id)
    | SplitRegistered(s: Id)
    | Ended(t: nat)
    | DisconnectArrived(s: Id)
    | HandBackArrived(req: nat)

  predicate Enabled(w: World, e: Event) {
    match e
    case Hook(h) => R.Enabled(w.hook, h) && (h.ConnectOk? ==> h.req in w.registered)
    case Registered(req) => req in w.hook.requests && req !in w.registered
    case HandBackArrived(req) => req in w.hook.log.handedBack && req in w.hook.log.succeeded
    case _ => true
  }

  function Step(w: World, e: Event): World
    requires Enabled(w, e)
  {
    match e
    case Hook(h) => w.(hook := R.Step(w.hook, h))
    case Registered(req) =>
      w.(backend := Register(w.backend, w.hook.requests[req]), registered := w.registered[req := w.hook.requests[req]])
    case UserRegistered(s) => w.(backend := Register(w.backend, s))
    case SplitRegistered(s) => w.(backend := Split(w.backend, s))
    case Ended(t) => w.(backend := w.backend.(live := w.backend.live - {t}))
    case DisconnectArrived(s) => w.(backend := w.backend.(live := Others(w.backend.live, s)))
    case HandBackArrived(req) => w.(backend := w.backend.(live := Others(w.backend.live, w.hook.log.succeeded[req])))
  }

  ghost predicate IsRun(worlds: seq<World>, events: seq<Event>) {
    && |worlds| == |events| + 1
    && worlds[0].hook.(profiles := {}, online := true, connected := []) == R.START
    && worlds[0].backend == Backend(map[], 0) && worlds[0].registered == map[]
    && forall i | 0 <= i < |events| :: Enabled(worlds[i], events[i]) && worlds[i + 1] == Step(worlds[i], events[i])
  }

  // --- Connects keep their session ---

  ghost predicate NamesOk(w: World) {
    forall req | req in w.registered ::
      && req < w.hook.nextRequest
      && (req in w.hook.requests ==> w.hook.requests[req] == w.registered[req])
      && (req in w.hook.log.succeeded ==> w.hook.log.succeeded[req] == w.registered[req])
  }

  ghost predicate HookOk(w: World) {
    R.Inv(w.hook) && R.LogOk(w.hook) && NamesOk(w)
  }

  lemma HookNames(w: World, h: R.Event)
    requires HookOk(w) && Enabled(w, Hook(h))
    ensures NamesOk(Step(w, Hook(h)))
  {
    if h.ConnectOk? {
      R.ResolvedLog(w.hook, h.req);
      hide R.Resolved, R.Inv, R.LogOk;
    } else {
      R.OnlySuccessesAreLogged(w.hook, h);
      hide R.Step, R.Inv, R.LogOk;
    }
  }

  lemma RegisteredNames(w: World, req: nat)
    requires HookOk(w) && Enabled(w, Registered(req))
    ensures NamesOk(Step(w, Registered(req)))
  {
    R.RequestsAreOld(w.hook, req);
    hide R.Inv;
  }

  lemma StepNames(w: World, e: Event)
    requires HookOk(w) && Enabled(w, e)
    ensures HookOk(Step(w, e))
  {
    hide R.Inv, R.LogOk, R.Step, NamesOk;
    match e
    case Hook(h) =>
      R.StepKeeps(w.hook, h);
      R.LogKeeps(w.hook, h);
      HookNames(w, h);
    case Registered(req) => RegisteredNames(w, req);
    case _ => SameNames(w, Step(w, e));
  }

  lemma SameNames(w: World, next: World)
    requires NamesOk(w) && next.hook == w.hook && next.registered == w.registered
    ensures NamesOk(next)
  {
  }

  lemma {:induction false} RunNames(worlds: seq<World>, events: seq<Event>, n: nat)
    requires IsRun(worlds, events) && n < |worlds|
    ensures HookOk(worlds[n])
  {
    if n > 0 {
      hide HookOk, Step, Enabled;
      RunNames(worlds, events, n - 1);
      StepNames(worlds[n - 1], events[n - 1]);
    } else {
      FreshHook(worlds[0].hook);
    }
  }

  lemma FreshHook(hook: R.State)
    requires hook.(profiles := {}, online := true, connected := []) == R.START
    ensures R.Inv(hook) && R.LogOk(hook)
  {
  }

  /** A connect registered for a session succeeds for that session. */
  lemma {:induction false} RegistrationStays(worlds: seq<World>, events: seq<Event>, m: nat, n: nat, req: nat)
    requires IsRun(worlds, events) && m < n < |worlds| && events[m] == Registered(req)
    ensures req in worlds[m].hook.requests && req in worlds[n].registered
    ensures worlds[n].registered[req] == worlds[m].hook.requests[req]
  {
    hide R.Step;
    if n > m + 1 {
      RegistrationStays(worlds, events, m, n - 1, req);
    }
  }

  // --- Terminals are what was opened and not stopped since ---

  ghost predicate Opens(w: World, e: Event, s: Id) {
    match e
    case Registered(req) => req in w.hook.requests && w.hook.requests[req] == s
    case UserRegistered(r) => r == s
    case SplitRegistered(r) => r == s
    case _ => false
  }

  /** The event stops terminal `t` of session `s`. */
  ghost predicate Stops(w: World, e: Event, s: Id, t: nat) {
    match e
    case Hook(_) => false
    case Registered(req) => req in w.hook.requests && w.hook.requests[req] == s
    case UserRegistered(r) => r == s
    case SplitRegistered(_) => false
    case Ended(u) => u == t
    case DisconnectArrived(r) => r == s
    case HandBackArrived(req) => req in w.hook.log.succeeded && w.hook.log.succeeded[req] == s
  }

  /** Terminal `t` was opened for `s` by event `i` and nothing before `n` has stopped it. */
  ghost predicate LiveSince(worlds: seq<World>, events: seq<Event>, s: Id, t: nat, i: nat, n: nat) {
    && i < n <= |events| < |worlds|
    && Opens(worlds[i], events[i], s) && t == worlds[i].backend.next
    && forall j | i < j < n :: !Stops(worlds[j], events[j], s, t)
  }

  ghost predicate Has(b: Backend, s: Id, t: nat) {
    t in b.live && b.live[t] == s
  }

  ghost predicate IdsOk(b: Backend) {
    forall t | t in b.live :: t < b.next
  }

  lemma BackendStep(w: World, e: Event, s: Id, t: nat)
    requires Enabled(w, e) && IdsOk(w.backend)
    ensures IdsOk(Step(w, e).backend) && w.backend.next <= Step(w, e).backend.next
    ensures Opens(w, e, s) ==> w.backend.next < Step(w, e).backend.next
    ensures Has(Step(w, e).backend, s, t) <==>
      (Opens(w, e, s) && t == w.backend.next) || (Has(w.backend, s, t) && !Stops(w, e, s, t))
  {
    hide R.Step;
  }

  lemma {:induction false} LiveIsHistory(worlds: seq<World>, events: seq<Event>, s: Id, t: nat, n: nat)
    requires IsRun(worlds, events) && n < |worlds|
    ensures IdsOk(worlds[n].backend)
    ensures Has(worlds[n].backend, s, t) <==> exists i: nat :: LiveSince(worlds, events, s, t, i, n)
  {
    if n == 0 {
      assert forall i: nat :: !LiveSince(worlds, events, s, t, i, 0);
    } else {
      hide Has, Opens, Stops, Step, Enabled, IdsOk, LiveSince;
      LiveIsHistory(worlds, events, s, t, n - 1);
      BackendStep(worlds[n - 1], events[n - 1], s, t);
      LiveGrows(worlds, events, s, t, n - 1, n);
    }
  }

  lemma LiveGrows(worlds: seq<World>, events: seq<Event>, s: Id, t: nat, n: nat, e: nat)
    requires n < |events| < |worlds| && e == n + 1
    ensures (exists i: nat :: LiveSince(worlds, events, s, t, i, e)) <==>
      (Opens(worlds[n], events[n], s) && t == worlds[n].backend.next)
      || ((exists i: nat :: LiveSince(worlds, events, s, t, i, n)) && !Stops(worlds[n], events[n], s, t))
  {
    hide Opens, Stops;
    if i: nat :| LiveSince(worlds, events, s, t, i, e) {
      assert i < n ==> LiveSince(worlds, events, s, t, i, n);
    }
    if Opens(worlds[n], events[n], s) && t == worlds[n].backend.next {
      assert LiveSince(worlds, events, s, t, n, e);
    }
    if i: nat :| LiveSince(worlds, events, s, t, i, n) && !Stops(worlds[n], events[n], s, t) {
      assert LiveSince(worlds, events, s, t, i, e);
    }
  }

  lemma {:induction false} NextGrows(worlds: seq<World>, events: seq<Event>, m: nat, n: nat)
    requires IsRun(worlds, events) && m <= n < |worlds|
    ensures worlds[m].backend.next <= worlds[n].backend.next
  {
    hide R.Step;
    if m < n {
      NextGrows(worlds, events, m, n - 1);
    }
  }

  /** The `disconnect_terminal` for a connect handed back stops every terminal its session
      then has, and no other. That is the connect's own and no more exactly when nothing
      opened for the session since it was registered is still live. */
  lemma HandBackTakesItsOwn(worlds: seq<World>, events: seq<Event>, m: nat, n: nat, req: nat)
    requires IsRun(worlds, events) && m < n < |events|
    requires events[m] == Registered(req) && events[n] == HandBackArrived(req)
    ensures req in worlds[m].hook.requests
    ensures var s, own := worlds[m].hook.requests[req], worlds[m].backend.next;
      var before, after := worlds[n].backend, worlds[n + 1].backend;
      && (forall r, t :: Has(after, r, t) <==> Has(before, r, t) && r != s)
      && ((forall t | Has(before, s, t) :: t == own)
          <==> !exists i: nat, t :: m < i && LiveSince(worlds, events, s, t, i, n))
  {
    var s, own := worlds[m].hook.requests[req], worlds[m].backend.next;
    RegistrationStays(worlds, events, m, n, req);
    RunNames(worlds, events, n);
    assert worlds[n].hook.log.succeeded[req] == s;
    forall t ensures Has(worlds[n].backend, s, t) <==> exists i: nat :: LiveSince(worlds, events, s, t, i, n) {
      LiveIsHistory(worlds, events, s, t, n);
    }
    assert worlds[n + 1] == Step(worlds[n], events[n]);
    forall r, t ensures Has(worlds[n + 1].backend, r, t) <==> Has(worlds[n].backend, r, t) && r != s {
    }
    assert forall t :: Stops(worlds[m], events[m], s, t);
    OpenedLaterIsNewer(worlds, events, m, n, s);
    hide Has, Opens, Stops, Step, Enabled, HookOk, IsRun;
    forall t | Has(worlds[n].backend, s, t) && t != own
      ensures exists i: nat :: m < i && LiveSince(worlds, events, s, t, i, n)
    {
      var i: nat :| LiveSince(worlds, events, s, t, i, n);
    }
    if i: nat, t :| m < i && LiveSince(worlds, events, s, t, i, n) {
      assert Has(worlds[n].backend, s, t) && t != own;
    }
  }

  lemma OpenedLaterIsNewer(worlds: seq<World>, events: seq<Event>, m: nat, n: nat, s: Id)
    requires IsRun(worlds, events) && m < n <= |events| && Opens(worlds[m], events[m], s)
    ensures forall i: nat, t | m < i && LiveSince(worlds, events, s, t, i, n) :: t != worlds[m].backend.next
  {
    assert worlds[m + 1].backend.next > worlds[m].backend.next;
    hide Step, Enabled, Opens, Stops;
    forall i: nat, t | m < i && LiveSince(worlds, events, s, t, i, n)
      ensures t != worlds[m].backend.next
    {
      NextGrows(worlds, events, m + 1, i);
    }
  }

  // --- A run in which it takes another ---

  /** A lost session `s` with its profile; its connect is in flight; it has been connected by
      the user meanwhile; its connect has succeeded. */
  function Hooks(s: Id): (R.State, R.State, R.State, R.State, R.State) {
    var h0 := R.START.(profiles := {s});
    var h1 := h0.(lost := [s], effectDue := true, failures := map[s := 0]);
    var h2 := h1.(inFlight := {s}, requests := map[0 := s], nextRequest := 1);
    var h3 := h2.(lost := [], connected := [s], failures := map[]);
    var h4 := h3.(requests := map[], settling := {s}, log := R.Log(map[0 := s], {}, {0}));
    (h0, h1, h2, h3, h4)
  }

  lemma HookAsks(s: Id)
    ensures var hs := Hooks(s);
      R.Step(hs.0, R.Lost(s)) == hs.1 && R.Step(hs.1, R.RetryAll) == hs.2
  {
    var h1 := Hooks(s).1;
    assert R.AttemptAll(h1, []) == h1 && R.AttemptAll(h1, [s]) == R.Attempt(h1, s) by {
      assert [s][..0] == [];
    }
  }

  lemma HookIsOvertaken(s: Id)
    ensures var hs := Hooks(s);
      R.Step(R.Step(hs.2, R.Connected(s)), R.Cleared(s)) == hs.3 && R.Step(hs.3, R.ConnectOk(0)) == hs.4
  {
    assert R.Remove([s], s) == [] by {
      assert [s][..0] == [];
    }
    var hs := Hooks(s);
    assert map[0 := s] - {0} == map[] && map[s := 0] - {s} == map[];
    var settled := R.Succeed(hs.3, 0);
    assert settled.attempts - {s} == settled.attempts && R.Finish(settled, s) == settled;
  }

  ghost predicate Leads(w: World, e: Event, next: World) {
    Enabled(w, e) && next == Step(w, e)
  }

  lemma HookAskLeads(s: Id, b: Backend)
    ensures var hs := Hooks(s);
      && Leads(World(hs.0, b, map[]), Hook(R.Lost(s)), World(hs.1, b, map[]))
      && Leads(World(hs.1, b, map[]), Hook(R.RetryAll), World(hs.2, b, map[]))
  {
    HookAsks(s);
    hide R.Step;
  }

  lemma OvertakenLeads(s: Id, b: Backend)
    ensures var hs, one := Hooks(s), map[0 := s];
      var mid := R.AddConnected(hs.2, s);
      && Leads(World(hs.2, b, one), Hook(R.Connected(s)), World(mid, b, one))
      && Leads(World(mid, b, one), Hook(R.Cleared(s)), World(hs.3, b, one))
      && Leads(World(hs.3, b, one), Hook(R.ConnectOk(0)), World(hs.4, b, one))
  {
    HookIsOvertaken(s);
    var hs := Hooks(s);
    assert R.Step(hs.2, R.Connected(s)) == R.AddConnected(hs.2, s) && R.AddConnected(hs.2, s).settling == {};
    hide R.Step;
  }

  lemma TerminalsLead(s: Id)
    ensures var hs, one := Hooks(s), map[0 := s];
      var none, own, users, left := Backend(map[], 0), Backend(map[0 := s], 1), Backend(map[1 := s], 2), Backend(map[], 2);
      && Leads(World(hs.2, none, map[]), Registered(0), World(hs.2, own, one))
      && Leads(World(hs.2, own, one), UserRegistered(s), World(hs.2, users, one))
      && Leads(World(hs.4, users, one), HandBackArrived(0), World(hs.4, left, one))
  {
    var none, own, users, left := Backend(map[], 0), Backend(map[0 := s], 1), Backend(map[1 := s], 2), Backend(map[], 2);
    assert Register(none, s) == own && Register(own, s) == users && Others(users.live, s) == map[];
    hide Register, Others;
  }

  function EventAt(s: Id, i: nat): Event {
    match i
    case 0 => Hook(R.Lost(s))
    case 1 => Hook(R.RetryAll)
    case 2 => Registered(0)
    case 3 => UserRegistered(s)
    case 4 => Hook(R.Connected(s))
    case 5 => Hook(R.Cleared(s))
    case 6 => Hook(R.ConnectOk(0))
    case _ => HandBackArrived(0)
  }

  function WorldAt(s: Id, i: nat): World {
    var (h0, h1, h2, h3, h4) := Hooks(s);
    var none, own, users, one := Backend(map[], 0), Backend(map[0 := s], 1), Backend(map[1 := s], 2), map[0 := s];
    match i
    case 0 => World(h0, none, map[])
    case 1 => World(h1, none, map[])
    case 2 => World(h2, none, map[])
    case 3 => World(h2, own, one)
    case 4 => World(h2, users, one)
    case 5 => World(R.AddConnected(h2, s), users, one)
    case 6 => World(h3, users, one)
    case 7 => World(h4, users, one)
    case _ => World(h4, Backend(map[], 2), one)
  }

  lemma LeadsOn(s: Id, i: nat)
    requires i < 8
    ensures Leads(WorldAt(s, i), EventAt(s, i), WorldAt(s, i + 1))
  {
    hide Leads, R.AddConnected, Hooks;
    if i < 2 {
      HookAskLeads(s, Backend(map[], 0));
    } else if i < 4 || i == 7 {
      TerminalsLead(s);
    } else {
      OvertakenLeads(s, Backend(map[1 := s], 2));
    }
  }

  /** The session is lost and the hook's connect gets its terminal; before its answer the user
      reconnects the pane, which clears the loss. So the answer is handed back, and that stops
      the user's terminal: the window shows the session as connected, and until a close event
      tells it otherwise the backend has nothing open for it. */
  lemma HandBackTakesTheUsers(s: Id)
    ensures var worlds, events := seq(9, i requires 0 <= i => WorldAt(s, i)), seq(8, i requires 0 <= i => EventAt(s, i));
      && IsRun(worlds, events)
      && worlds[7].hook.lost == [] && worlds[7].hook.connected == [s] && Has(worlds[7].backend, s, 1)
      && s in worlds[8].hook.connected && forall t :: !Has(worlds[8].backend, s, t)
  {
    var worlds, events := seq(9, i requires 0 <= i => WorldAt(s, i)), seq(8, i requires 0 <= i => EventAt(s, i));
    assert WorldAt(s, 0).hook.(profiles := {}, online := true, connected := []) == R.START;
    assert WorldAt(s, 8).backend.live == map[];
    hide Step, Enabled;
    forall i | 0 <= i < 8 ensures Enabled(worlds[i], events[i]) && worlds[i + 1] == Step(worlds[i], events[i]) {
      LeadsOn(s, i);
    }
  }
}
