/** The engine is the product of its keys: every run, seen at one key, is a run of
    the machine in `AlertKeyed.dfy` on the operations that concern that key. */
module AlertProjection {
  import opened Wrappers
  import opened AlertRules
  import opened AlertState
  import opened AlertKeyed

  function View(st: State, key: AlertKey): KeyState {
    KeyState(PhaseOf(st.phases, key),
             if key in st.lastNotified then Some(st.lastNotified[key]) else None,
             if key in st.active then Some(st.active[key]) else None)
  }

  function EventsOf(key: AlertKey, events: seq<AlertEvent>): seq<AlertEvent> {
    if events == [] then []
    else
      var n := |events| - 1;
      EventsOf(key, events[..n]) + if EventKey(events[n]) == key then [events[n]] else []
  }

  /** The operations on `key` among the checks of one evaluation. */
  function CheckOps(key: AlertKey, host: string, checks: seq<Check>, now: nat, cooldown: nat): seq<KeyOp> {
    if checks == [] then []
    else
      var n := |checks| - 1;
      CheckOps(key, host, checks[..n], now, cooldown)
      + if checks[n].kind == key.kind && checks[n].subject == key.subject
        then [Apply(host, checks[n], Some(checks[n].threshold), now, cooldown)] else []
  }

  /** What one call does to `key` under the settings in force. It mentions no other
      scope, no other key, and nothing the engine has stored. */
  function OpsFor(s: AlertSettings, call: Call, key: AlertKey): seq<KeyOp> {
    match call
    case CallEvaluate(scope, host, input, now) =>
      if s.enabled && scope == key.scope then CheckOps(key, host, ChecksFor(s, input), now, s.cooldownSecs) else []
    case CallLlm(instance, name, from, to, now) =>
      var fired, resolved := LlmFired(from, to), LlmResolved(from, to);
      if s.enabled && s.llmCritical && (fired || resolved) && key == AlertKey(LLM_SCOPE, LlmCritical, instance)
      then [Apply(name, LlmCheck(instance, fired, resolved), None, now, s.cooldownSecs)] else []
    case CallForget(scope) => if scope == key.scope then [Forget] else []
    case CallSettings(_) => [Reset]
  }

  /** The settings in force after a run. */
  function SettingsAfter(s0: AlertSettings, calls: seq<Call>): AlertSettings {
    if calls == [] then s0
    else if calls[|calls| - 1].CallSettings? then calls[|calls| - 1].settings
    else SettingsAfter(s0, calls[..|calls| - 1])
  }

  /** All operations of a run on `key`. */
  function Ops(s0: AlertSettings, calls: seq<Call>, key: AlertKey): seq<KeyOp> {
    if calls == [] then []
    else
      var n := |calls| - 1;
      Ops(s0, calls[..n], key) + OpsFor(SettingsAfter(s0, calls[..n]), calls[n], key)
  }

  /** The key machine from a given state. */
  function KeyFrom(key: AlertKey, ks: KeyState, ops: seq<KeyOp>): (KeyState, seq<AlertEvent>) {
    if ops == [] then (ks, [])
    else
      var n := |ops| - 1;
      var (before, events) := KeyFrom(key, ks, ops[..n]);
      var (after, event) := KeyStep(key, before, ops[n]);
      (after, events + AsSeq(event))
  }

  lemma KeyFromSnoc(key: AlertKey, ks: KeyState, ops: seq<KeyOp>, op: KeyOp)
    ensures var (before, events) := KeyFrom(key, ks, ops);
      var (after, event) := KeyStep(key, before, op);
      KeyFrom(key, ks, ops + [op]) == (after, events + AsSeq(event))
  {
    assert (ops + [op])[..|ops|] == ops;
  }

  lemma KeyFromOne(key: AlertKey, ks: KeyState, op: KeyOp)
    ensures var (after, event) := KeyStep(key, ks, op); KeyFrom(key, ks, [op]) == (after, AsSeq(event))
  {
    KeyFromSnoc(key, ks, [], op);
    assert [] + [op] == [op];
    assert [] + AsSeq(KeyStep(key, ks, op).1) == AsSeq(KeyStep(key, ks, op).1);
  }

  lemma KeyAtSnoc(key: AlertKey, ops: seq<KeyOp>, op: KeyOp)
    ensures var (after, event) := KeyStep(key, KeyAt(key, ops, |ops|), op);
      && KeyAt(key, ops + [op], |ops| + 1) == after
      && KeyEvents(key, ops + [op], |ops| + 1) == KeyEvents(key, ops, |ops|) + AsSeq(event)
  {
    KeyPrefix(key, ops + [op], ops, |ops|);
  }

  lemma Regroup<T>(early: seq<T>, late: seq<T>, all: seq<T>, tail: seq<T>)
    requires early + late == all
    ensures early + (late + tail) == all + tail
  {
  }

  lemma {:induction false} KeyFromContinues(key: AlertKey, a: seq<KeyOp>, b: seq<KeyOp>, whole: seq<KeyOp>)
    requires whole == a + b
    ensures KeyFrom(key, KeyAt(key, a, |a|), b).0 == KeyAt(key, whole, |whole|)
    ensures KeyEvents(key, a, |a|) + KeyFrom(key, KeyAt(key, a, |a|), b).1 == KeyEvents(key, whole, |whole|)
  {
    hide KeyAt, KeyEvents, KeyStep;
    if b == [] {
      assert whole == a;
      assert KeyEvents(key, a, |a|) + [] == KeyEvents(key, a, |a|);
    } else {
      hide KeyFrom;
      var n := |b| - 1;
      var part, op := whole[..|whole| - 1], b[n];
      KeyFromContinues(key, a, b[..n], part);
      KeyFromGrows(key, a, b[..n], part, op);
      assert whole == part + [op] && b == b[..n] + [op];
    }
  }

  lemma KeyFromGrows(key: AlertKey, a: seq<KeyOp>, c: seq<KeyOp>, part: seq<KeyOp>, op: KeyOp)
    requires KeyFrom(key, KeyAt(key, a, |a|), c).0 == KeyAt(key, part, |part|)
    requires KeyEvents(key, a, |a|) + KeyFrom(key, KeyAt(key, a, |a|), c).1 == KeyEvents(key, part, |part|)
    ensures KeyFrom(key, KeyAt(key, a, |a|), c + [op]).0 == KeyAt(key, part + [op], |part| + 1)
    ensures KeyEvents(key, a, |a|) + KeyFrom(key, KeyAt(key, a, |a|), c + [op]).1
            == KeyEvents(key, part + [op], |part| + 1)
  {
    hide KeyStep;
    var ks := KeyAt(key, a, |a|);
    KeyAtSnoc(key, part, op);
    KeyFromSnoc(key, ks, c, op);
    Regroup(KeyEvents(key, a, |a|), KeyFrom(key, ks, c).1, KeyEvents(key, part, |part|),
            AsSeq(KeyStep(key, KeyAt(key, part, |part|), op).1));
  }

  lemma TrackSnoc(active: map<AlertKey, AlertEvent>, events: seq<AlertEvent>, event: AlertEvent)
    ensures Track(active, events + [event]) == TrackOne(Track(active, events), event)
  {
    assert (events + [event])[..|events|] == events;
  }

  lemma {:induction false} EventsOfAppend(key: AlertKey, a: seq<AlertEvent>, b: seq<AlertEvent>)
    ensures EventsOf(key, a + b) == EventsOf(key, a) + EventsOf(key, b)
  {
    if b == [] {
      assert a + b == a;
    } else {
      var n := |b| - 1;
      EventsOfAppend(key, a, b[..n]);
      assert (a + b)[..|a| + n] == a + b[..n] && (a + b)[|a| + n] == b[n];
    }
  }

  lemma EventsOfOne(key: AlertKey, event: Option<AlertEvent>)
    ensures EventsOf(key, AsSeq(event)) == if event.Some? && EventKey(event.value) == key then [event.value] else []
  {
    if event.Some? {
      assert [event.value][..0] == [];
      assert EventsOf(key, []) == [];
    }
  }

  // --- One call ---

  function ApplyTracked(st: State, scope: string, host: string, check: Check, now: nat, cooldown: nat)
    : (State, Option<AlertEvent>)
  {
    var (after, event) := ApplyCheck(st, scope, host, check, now, cooldown);
    (after.(active := if event.Some? then TrackOne(after.active, event.value) else after.active), event)
  }

  function ApplyTrackedAll(st: State, scope: string, host: string, checks: seq<Check>, now: nat, cooldown: nat)
    : (State, seq<AlertEvent>)
  {
    if checks == [] then (st, [])
    else
      var n := |checks| - 1;
      var (before, events) := ApplyTrackedAll(st, scope, host, checks[..n], now, cooldown);
      var (after, event) := ApplyTracked(before, scope, host, checks[n], now, cooldown);
      (after, events + AsSeq(event))
  }

  /** Tracking a batch at its end is tracking each event as it comes: the rules never
      read `active`. */
  lemma {:induction false} TrackingCommutes(
    st: State, scope: string, host: string, checks: seq<Check>, now: nat, cooldown: nat)
    ensures var (after, events) := ApplyAll(st, scope, host, checks, now, cooldown);
      && after.active == st.active
      && ApplyTrackedAll(st, scope, host, checks, now, cooldown) == (after.(active := Track(st.active, events)), events)
  {
    if checks != [] {
      var n := |checks| - 1;
      TrackingCommutes(st, scope, host, checks[..n], now, cooldown);
      var (before, events) := ApplyAll(st, scope, host, checks[..n], now, cooldown);
      var event := ApplyCheck(before, scope, host, checks[n], now, cooldown).1;
      ActiveUnread(before, scope, host, checks[n], now, cooldown, Track(st.active, events));
      if event.Some? {
        TrackSnoc(st.active, events, event.value);
      } else {
        assert events + AsSeq(event) == events;
      }
    }
  }

  lemma ActiveUnread(
    st: State, scope: string, host: string, check: Check, now: nat, cooldown: nat, active: map<AlertKey, AlertEvent>)
    ensures var (after, event) := ApplyCheck(st, scope, host, check, now, cooldown);
      && after.active == st.active
      && ApplyCheck(st.(active := active), scope, host, check, now, cooldown) == (after.(active := active), event)
  {
  }

  lemma TrackedProjects(st: State, scope: string, host: string, check: Check, now: nat, cooldown: nat, key: AlertKey)
    ensures var (after, event) := ApplyTracked(st, scope, host, check, now, cooldown);
      if key == KeyOf(scope, check) then
        (View(after, key), event) == KeyStep(key, View(st, key), Apply(host, check, Some(check.threshold), now, cooldown))
      else View(after, key) == View(st, key) && (event.Some? ==> EventKey(event.value) != key)
  {
    hide Step;
  }

  lemma {:induction false} ChecksProject(
    st: State, scope: string, host: string, checks: seq<Check>, now: nat, cooldown: nat, key: AlertKey)
    ensures var (after, events) := ApplyTrackedAll(st, scope, host, checks, now, cooldown);
      (View(after, key), EventsOf(key, events))
      == KeyFrom(key, View(st, key), if scope == key.scope then CheckOps(key, host, checks, now, cooldown) else [])
  {
    if checks != [] {
      hide KeyStep, ApplyTracked, View;
      var n := |checks| - 1;
      ChecksProject(st, scope, host, checks[..n], now, cooldown, key);
      var (before, events) := ApplyTrackedAll(st, scope, host, checks[..n], now, cooldown);
      TrackedProjects(before, scope, host, checks[n], now, cooldown, key);
      var (after, event) := ApplyTracked(before, scope, host, checks[n], now, cooldown);
      EventsOfAppend(key, events, AsSeq(event));
      EventsOfOne(key, event);
      var ops := CheckOps(key, host, checks[..n], now, cooldown);
      assert ops + [] == ops && EventsOf(key, events) + [] == EventsOf(key, events);
      if key == KeyOf(scope, checks[n]) {
        KeyFromSnoc(key, View(st, key), ops, Apply(host, checks[n], Some(checks[n].threshold), now, cooldown));
      }
    }
  }

  lemma EvaluateProjects(st: State, scope: string, host: string, input: AlertInput, now: nat, key: AlertKey)
    ensures var (after, events) := Evaluate(st, scope, host, input, now);
      (View(after, key), EventsOf(key, events))
      == KeyFrom(key, View(st, key), OpsFor(st.settings, CallEvaluate(scope, host, input, now), key))
  {
    var checks := ChecksFor(st.settings, input);
    TrackingCommutes(st, scope, host, checks, now, st.settings.cooldownSecs);
    ChecksProject(st, scope, host, checks, now, st.settings.cooldownSecs, key);
  }

  lemma LlmProjects(
    st: State, instance: string, name: string, from: Option<SeverityLevel>, to: SeverityLevel, now: nat, key: AlertKey)
    ensures var (after, event) := LlmTransition(st, instance, name, from, to, now);
      (View(after, key), EventsOf(key, AsSeq(event)))
      == KeyFrom(key, View(st, key), OpsFor(st.settings, CallLlm(instance, name, from, to, now), key))
  {
    var event := LlmTransition(st, instance, name, from, to, now).1;
    EventsOfOne(key, event);
    if key == AlertKey(LLM_SCOPE, LlmCritical, instance) {
      LlmOwn(st, instance, name, from, to, now, key);
      hide LlmTransition, View;
      KeyFromOne(key, View(st, key), Apply(name, LlmCheck(instance, LlmFired(from, to), LlmResolved(from, to)), None, now, st.settings.cooldownSecs));
      hide LlmFired, LlmResolved, KeyStep;
    } else {
      LlmOther(st, instance, name, from, to, now, key);
      hide LlmTransition, View, LlmFired, LlmResolved;
    }
  }

  lemma LlmOwn(
    st: State, instance: string, name: string, from: Option<SeverityLevel>, to: SeverityLevel, now: nat, key: AlertKey)
    requires key == AlertKey(LLM_SCOPE, LlmCritical, instance)
    ensures var (after, event) := LlmTransition(st, instance, name, from, to, now);
      && (event.Some? ==> EventKey(event.value) == key)
      && var fired, resolved := LlmFired(from, to), LlmResolved(from, to);
      if st.settings.enabled && st.settings.llmCritical && (fired || resolved)
      then (View(after, key), event) == KeyStep(key, View(st, key), Apply(name, LlmCheck(instance, fired, resolved), None, now, st.settings.cooldownSecs))
      else (View(after, key), event) == (View(st, key), None)
  {
    hide Step;
    TrackOfOne(st, instance, name, from, to, now);
  }

  lemma LlmOther(
    st: State, instance: string, name: string, from: Option<SeverityLevel>, to: SeverityLevel, now: nat, key: AlertKey)
    requires key != AlertKey(LLM_SCOPE, LlmCritical, instance)
    ensures var (after, event) := LlmTransition(st, instance, name, from, to, now);
      View(after, key) == View(st, key) && (event.Some? ==> EventKey(event.value) != key)
  {
    hide Step;
    TrackOfOne(st, instance, name, from, to, now);
  }

  lemma TrackOfOne(st: State, instance: string, name: string, from: Option<SeverityLevel>, to: SeverityLevel, now: nat)
    ensures var (after, event) := LlmTransition(st, instance, name, from, to, now);
      after.active == if event.Some? then TrackOne(st.active, event.value) else st.active
  {
    var event := LlmTransition(st, instance, name, from, to, now).1;
    if event.Some? {
      TrackSnoc(st.active, [], event.value);
      assert [] + [event.value] == [event.value];
    }
  }

  lemma CallProjects(st: State, call: Call, key: AlertKey)
    ensures var (after, events) := Do(st, call);
      (View(after, key), EventsOf(key, events)) == KeyFrom(key, View(st, key), OpsFor(st.settings, call, key))
    ensures Do(st, call).0.settings == if call.CallSettings? then call.settings else st.settings
  {
    match call
    case CallEvaluate(scope, host, input, now) =>
      EvaluateProjects(st, scope, host, input, now, key);
      TrackingCommutes(st, scope, host, ChecksFor(st.settings, input), now, st.settings.cooldownSecs);
      SettingsKept(st, scope, host, ChecksFor(st.settings, input), now, st.settings.cooldownSecs);
    case CallLlm(instance, name, from, to, now) =>
      LlmProjects(st, instance, name, from, to, now, key);
    case CallForget(scope) =>
      KeyFromOne(key, View(st, key), Forget);
    case CallSettings(settings) =>
      KeyFromOne(key, View(st, key), Reset);
  }

  lemma {:induction false} SettingsKept(
    st: State, scope: string, host: string, checks: seq<Check>, now: nat, cooldown: nat)
    ensures ApplyAll(st, scope, host, checks, now, cooldown).0.settings == st.settings
  {
    if checks != [] {
      SettingsKept(st, scope, host, checks[..|checks| - 1], now, cooldown);
    }
  }

  // --- Whole runs ---

  /** The projection theorem: after any run, what the four maps say about a key, and
      the events emitted for it, are those of the key's own machine. */
  lemma {:induction false} RunProjects(s0: AlertSettings, calls: seq<Call>, key: AlertKey)
    ensures var (st, events) := Run(s0, calls);
      var ops := Ops(s0, calls, key);
      && View(st, key) == KeyAt(key, ops, |ops|)
      && EventsOf(key, events) == KeyEvents(key, ops, |ops|)
      && st.settings == SettingsAfter(s0, calls)
  {
    if calls != [] {
      var n := |calls| - 1;
      RunProjects(s0, calls[..n], key);
      var (before, events) := Run(s0, calls[..n]);
      CallProjects(before, calls[n], key);
      EventsOfAppend(key, events, Do(before, calls[n]).1);
      KeyFromContinues(key, Ops(s0, calls[..n], key), OpsFor(before.settings, calls[n], key), Ops(s0, calls, key));
    }
  }
}
