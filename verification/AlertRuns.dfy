/** What holds of the engine over every run of its public calls. */
module AlertRuns {
  import opened Wrappers
  import opened Floats
  import opened AlertRules
  import opened Matches
  import opened AlertHistory
  import opened AlertState
  import opened AlertKeyed
  import opened AlertProjection

  // --- Phases ---

  /** The readings of `key` since the last new settings or forgotten scope. */
  function Readings(s0: AlertSettings, calls: seq<Call>, key: AlertKey): seq<Reading> {
    var ops := Ops(s0, calls, key);
    ReadingsSince(ops, |ops|)
  }

  /** After every run, the phase of every key is the one the documentation describes
      for that key's readings since its last reset. */
  lemma PhasesAreHistories(s0: AlertSettings, calls: seq<Call>, key: AlertKey)
    ensures var rs := Readings(s0, calls, key);
      var changes := Changes(rs, |rs|);
      && AreMatches(ChangeRule(rs), |rs|, changes)
      && DescribesFrom(rs, |rs|, StartOf(changes, |changes|), |changes|, PhaseOf(Run(s0, calls).0.phases, key))
  {
    RunProjects(s0, calls, key);
    var ops := Ops(s0, calls, key);
    KeyIsHistory(key, ops, |ops|);
    var rs := Readings(s0, calls, key);
    PhaseIsHistory(rs, |rs|);
  }

  // --- Events ---

  /** The events of a key since its last reset are the latest it has had, and they
      alternate fired, resolved, starting with fired. */
  lemma RunEventsAlternate(s0: AlertSettings, calls: seq<Call>, key: AlertKey)
    ensures var (st, events) := Run(s0, calls);
      var ops := Ops(s0, calls, key);
      var since := EventsSince(key, ops, |ops|);
      && (exists early :: EventsOf(key, events) == early + since)
      && (forall c: nat | c < |since| :: since[c].fired == (c % 2 == 0))
      && (PhaseOf(st.phases, key).Firing? <==> |since| % 2 == 1)
  {
    RunProjects(s0, calls, key);
    var ops := Ops(s0, calls, key);
    EventsAlternate(key, ops, |ops|);
    EventsSinceAreLast(key, ops, |ops|);
  }

  // --- `active` ---

  /** A firing key is in `active` with a fired event of its own; a key in `active` that
      is not firing was stranded there by new settings, and only so. */
  lemma ActiveOverRuns(s0: AlertSettings, calls: seq<Call>, key: AlertKey)
    ensures var st := Run(s0, calls).0;
      var ops := Ops(s0, calls, key);
      && (PhaseOf(st.phases, key).Firing? ==> key in st.active)
      && (key in st.active ==> st.active[key].fired && EventKey(st.active[key]) == key)
      && (key in st.active && !PhaseOf(st.phases, key).Firing? <==> Stranded(key, ops, |ops|))
  {
    RunProjects(s0, calls, key);
    var ops := Ops(s0, calls, key);
    ActiveIsHistory(key, ops, |ops|);
    LatestFired(key, ops, |ops|);
  }

  lemma LatestFired(key: AlertKey, ops: seq<KeyOp>, n: nat)
    requires n <= |ops|
    ensures KeyAt(key, ops, n).active.Some? ==> KeyAt(key, ops, n).active.value.fired
  {
    ActiveIsHistory(key, ops, n);
  }

  /** On a run with no new settings, `active` holds exactly the firing keys. */
  lemma ActiveIsFiring(s0: AlertSettings, calls: seq<Call>)
    requires forall i | 0 <= i < |calls| :: !calls[i].CallSettings?
    ensures var st := Run(s0, calls).0;
      forall key :: key in st.active <==> PhaseOf(st.phases, key).Firing?
  {
    forall key
      ensures key in Run(s0, calls).0.active <==> PhaseOf(Run(s0, calls).0.phases, key).Firing?
    {
      ActiveOverRuns(s0, calls, key);
      NoResets(s0, calls, key);
    }
  }

  lemma {:induction false} NoResets(s0: AlertSettings, calls: seq<Call>, key: AlertKey)
    requires forall i | 0 <= i < |calls| :: !calls[i].CallSettings?
    ensures forall i | 0 <= i < |Ops(s0, calls, key)| :: !Ops(s0, calls, key)[i].Reset?
  {
    if calls != [] {
      var n := |calls| - 1;
      NoResets(s0, calls[..n], key);
      OpsAreApplied(SettingsAfter(s0, calls[..n]), calls[n], key);
    }
  }

  /** Every rule application of a call carries the cooldown in force. */
  lemma OpsAreApplied(s: AlertSettings, call: Call, key: AlertKey)
    ensures forall i | 0 <= i < |OpsFor(s, call, key)| ::
              var op := OpsFor(s, call, key)[i];
              (op.Apply? ==> op.cooldown == s.cooldownSecs) && (op.Reset? ==> call.CallSettings?)
  {
    if call.CallEvaluate? {
      CheckOpsAreApplied(key, call.host, ChecksFor(s, call.input), call.now, s.cooldownSecs);
    }
  }

  lemma {:induction false} CheckOpsAreApplied(key: AlertKey, host: string, checks: seq<Check>, now: nat, cooldown: nat)
    ensures forall i | 0 <= i < |CheckOps(key, host, checks, now, cooldown)| ::
              var op := CheckOps(key, host, checks, now, cooldown)[i]; op.Apply? && op.cooldown == cooldown
  {
    if checks != [] {
      CheckOpsAreApplied(key, host, checks[..|checks| - 1], now, cooldown);
    }
  }

  const STRICT_MEMORY := DEFAULT_SETTINGS.(memory := ThresholdRule(true, Fin(90.0), Fin(5.0), 0))

  function MemoryAt(percent: real, now: nat): Call {
    CallEvaluate("s", "lab", AlertInput([], Some(Fin(percent)), []), now)
  }

  /** A breach, the same settings saved again, and a reading far below the band. */
  const STRANDING := [MemoryAt(95.0, 0), CallSettings(STRICT_MEMORY), MemoryAt(50.0, 10)]

  function MemoryOp(percent: real, now: nat): KeyOp {
    Apply("lab", ThresholdCheck(Memory, "", STRICT_MEMORY.memory, Some(Fin(percent)))[0], Some(Fin(90.0)), now, 600)
  }

  /** New settings break the other direction: an alert that was firing stays in
      `active` for good, though its rule is back to normal and no resolution is sent. */
  lemma SettingsStrand()
    ensures var key := AlertKey("s", Memory, "");
      var (st, events) := Run(STRICT_MEMORY, STRANDING);
      && Sanitize(STRICT_MEMORY) == STRICT_MEMORY
      && key in st.active && key !in st.phases
      && forall i | 0 <= i < |EventsOf(key, events)| :: EventsOf(key, events)[i].fired
  {
    SanitizeRange(STRICT_MEMORY);
    var key := AlertKey("s", Memory, "");
    var ops := [MemoryOp(95.0, 0), Reset, MemoryOp(50.0, 10)];
    StrandingOps(key);
    StrandingKey(key, ops);
    RunProjects(STRICT_MEMORY, STRANDING, key);
    NoNormalStored(STRICT_MEMORY, STRANDING, key);
  }

  lemma StrandingOps(key: AlertKey)
    requires key == AlertKey("s", Memory, "")
    ensures Ops(STRICT_MEMORY, STRANDING, key) == [MemoryOp(95.0, 0), Reset, MemoryOp(50.0, 10)]
  {
    var s0, calls := STRICT_MEMORY, STRANDING;
    OneMemoryOp(s0, calls[0], MemoryOp(95.0, 0).check, key);
    OneMemoryOp(s0, calls[2], MemoryOp(50.0, 10).check, key);
    assert calls[..2][..1] == [calls[0]] && calls[..2][..1][..0] == [];
    assert SettingsAfter(s0, []) == s0 && SettingsAfter(s0, [calls[0]]) == s0 && SettingsAfter(s0, calls[..2]) == s0;
    assert Ops(s0, [calls[0]], key) == [MemoryOp(95.0, 0)];
    assert Ops(s0, calls[..2], key) == [MemoryOp(95.0, 0), Reset];
  }

  lemma StrandingKey(key: AlertKey, ops: seq<KeyOp>)
    requires ops == [MemoryOp(95.0, 0), Reset, MemoryOp(50.0, 10)]
    ensures KeyAt(key, ops, 3).active.Some? && KeyAt(key, ops, 3).phase.Normal?
    ensures forall i | 0 <= i < |KeyEvents(key, ops, 3)| :: KeyEvents(key, ops, 3)[i].fired
  {
    assert KeyAt(key, ops, 1) == KeyStep(key, NEW_KEY, ops[0]).0;
    assert KeyAt(key, ops, 2) == KeyStep(key, KeyAt(key, ops, 1), ops[1]).0;
    assert EventAt(key, ops, 2).None?;
    assert KeyEvents(key, ops, 1) == [] + AsSeq(EventAt(key, ops, 0));
    assert KeyEvents(key, ops, 2) == KeyEvents(key, ops, 1) + [];
  }

  lemma OneMemoryOp(s: AlertSettings, call: Call, check: Check, key: AlertKey)
    requires s.enabled && key == AlertKey("s", Memory, "")
    requires call.CallEvaluate? && call.scope == "s" && call.input.gpus == [] && call.input.disks == []
    requires ThresholdCheck(Memory, "", s.memory, call.input.memory) == [check]
    ensures OpsFor(s, call, key) == [Apply(call.host, check, Some(check.threshold), call.now, s.cooldownSecs)]
  {
    assert ChecksFor(s, call.input) == [check];
    assert [check][..0] == [];
    assert CheckOps(key, call.host, [], call.now, s.cooldownSecs) == [];
  }

  lemma {:induction false} NoNormalStored(s0: AlertSettings, calls: seq<Call>, key: AlertKey)
    ensures var st := Run(s0, calls).0; key in st.phases ==> st.phases[key] != Normal
  {
    if calls != [] {
      var n := |calls| - 1;
      NoNormalStored(s0, calls[..n], key);
      NoNormalDone(Run(s0, calls[..n]).0, calls[n], key);
    }
  }

  lemma NoNormalDone(before: State, call: Call, key: AlertKey)
    requires key in before.phases ==> before.phases[key] != Normal
    ensures key in Do(before, call).0.phases ==> Do(before, call).0.phases[key] != Normal
  {
    hide Step, ApplyAll;
    if call.CallEvaluate? {
      NoNormalApplied(before, call.scope, call.host, ChecksFor(before.settings, call.input), call.now,
                      before.settings.cooldownSecs, key);
    }
  }

  lemma {:induction false} NoNormalApplied(
    st: State, scope: string, host: string, checks: seq<Check>, now: nat, cooldown: nat, key: AlertKey)
    requires key in st.phases ==> st.phases[key] != Normal
    ensures var after := ApplyAll(st, scope, host, checks, now, cooldown).0;
      key in after.phases ==> after.phases[key] != Normal
  {
    if checks != [] {
      NoNormalApplied(st, scope, host, checks[..|checks| - 1], now, cooldown, key);
    }
  }

  // --- The cooldown ---

  /** The settings of a run as they reach the engine: `update_alert_settings` and the
      loader sanitise them first, which makes every cooldown positive. */
  predicate CooldownsPositive(s0: AlertSettings, calls: seq<Call>) {
    s0.cooldownSecs > 0 && forall i | 0 <= i < |calls| && calls[i].CallSettings? :: calls[i].settings.cooldownSecs > 0
  }

  lemma {:induction false} OpsHaveCooldowns(s0: AlertSettings, calls: seq<Call>, key: AlertKey)
    requires CooldownsPositive(s0, calls)
    ensures SettingsAfter(s0, calls).cooldownSecs > 0
    ensures forall i | 0 <= i < |Ops(s0, calls, key)| :: Ops(s0, calls, key)[i].Apply? ==> Ops(s0, calls, key)[i].cooldown > 0
  {
    if calls != [] {
      var n := |calls| - 1;
      OpsHaveCooldowns(s0, calls[..n], key);
      OpsAreApplied(SettingsAfter(s0, calls[..n]), calls[n], key);
    }
  }

  lemma {:induction false} EventHasOp(key: AlertKey, ops: seq<KeyOp>, n: nat, e: AlertEvent) returns (i: nat)
    requires n <= |ops| && e in KeyEvents(key, ops, n)
    ensures i < n && EventAt(key, ops, i) == Some(e)
  {
    if EventAt(key, ops, n - 1) == Some(e) {
      i := n - 1;
    } else {
      i := EventHasOp(key, ops, n - 1, e);
    }
  }

  lemma EventAtPrefix(key: AlertKey, a: seq<KeyOp>, ops: seq<KeyOp>, i: nat)
    requires i < |a| <= |ops| && a == ops[..|a|]
    ensures EventAt(key, a, i) == EventAt(key, ops, i)
  {
    assert a[..i] == ops[..i];
    KeyPrefix(key, a, ops, i);
  }

  lemma {:induction false} LaterEventHasOp(key: AlertKey, a: seq<KeyOp>, b: seq<KeyOp>, ops: seq<KeyOp>, e: AlertEvent)
    returns (i: nat)
    requires ops == a + b && e in KeyFrom(key, KeyAt(key, a, |a|), b).1
    ensures |a| <= i < |ops| && EventAt(key, ops, i) == Some(e)
  {
    var n := |b| - 1;
    var part := ops[..|ops| - 1];
    KeyFromContinues(key, a, b[..n], part);
    KeyPrefix(key, part, ops, |part|);
    if EventAt(key, ops, |part|) == Some(e) {
      i := |part|;
    } else {
      i := LaterEventHasOp(key, a, b[..n], part, e);
      EventAtPrefix(key, part, ops, i);
    }
  }

  lemma {:induction false} EventsOfContains(key: AlertKey, events: seq<AlertEvent>, e: AlertEvent)
    requires e in events && EventKey(e) == key
    ensures e in EventsOf(key, events)
  {
    var n := |events| - 1;
    if e != events[n] {
      assert e in events[..n];
      EventsOfContains(key, events[..n], e);
    }
  }

  lemma EventAtIsAt(key: AlertKey, ops: seq<KeyOp>, i: nat)
    requires i < |ops| && EventAt(key, ops, i).Some?
    ensures ops[i].Apply? && EventAt(key, ops, i).value.at == ops[i].now
  {
  }

  /** Over every run, across new settings and forgotten scopes: a call that notifies
      about a key does so at least its cooldown after everything notified before. */
  lemma NotificationsAreSpaced(s0: AlertSettings, calls: seq<Call>, call: Call, earlier: AlertEvent, later: AlertEvent)
    requires CooldownsPositive(s0, calls)
    requires earlier in Run(s0, calls).1 && later in Do(Run(s0, calls).0, call).1
    requires EventKey(earlier) == EventKey(later) && earlier.notify && later.notify
    ensures later.at >= earlier.at + SettingsAfter(s0, calls).cooldownSecs
  {
    var key := EventKey(later);
    var (st, events) := Run(s0, calls);
    var settings := SettingsAfter(s0, calls);
    var a, b := Ops(s0, calls, key), OpsFor(settings, call, key);
    var ops := a + b;
    RunProjects(s0, calls, key);
    CallProjects(st, call, key);
    EventsOfContains(key, events, earlier);
    EventsOfContains(key, Do(st, call).1, later);
    OpsHaveCooldowns(s0, calls, key);
    OpsAreApplied(settings, call, key);
    OpsSpaced(a, b, ops);
    EventsSpaced(key, a, b, ops, settings.cooldownSecs, earlier, later);
  }

  lemma EventsSpaced(
    key: AlertKey, a: seq<KeyOp>, b: seq<KeyOp>, ops: seq<KeyOp>, cooldown: nat, earlier: AlertEvent, later: AlertEvent)
    requires ops == a + b && Spaced(ops)
    requires forall i | 0 <= i < |b| :: b[i].Apply? ==> b[i].cooldown == cooldown
    requires earlier in KeyEvents(key, a, |a|) && later in KeyFrom(key, KeyAt(key, a, |a|), b).1
    requires earlier.notify && later.notify
    ensures later.at >= earlier.at + cooldown
  {
    hide KeyStep, KeyAt, KeyFrom, KeyEvents;
    var i := EventHasOp(key, a, |a|, earlier);
    EventAtPrefix(key, a, ops, i);
    var j := LaterEventHasOp(key, a, b, ops, later);
    NotificationsSpaced(key, ops, i, j);
    EventAtIsAt(key, ops, i);
    EventAtIsAt(key, ops, j);
    assert ops[j] == b[j - |a|];
  }

  lemma OpsSpaced(a: seq<KeyOp>, b: seq<KeyOp>, ops: seq<KeyOp>)
    requires ops == a + b
    requires forall i | 0 <= i < |a| :: a[i].Apply? ==> a[i].cooldown > 0
    requires forall i | 0 <= i < |b| :: b[i].Apply? ==> b[i].cooldown > 0
    ensures Spaced(ops)
  {
  }

  // --- Scopes do not interfere ---

  function EventsIn(scope: string, events: seq<AlertEvent>): seq<AlertEvent> {
    if events == [] then []
    else
      var n := |events| - 1;
      EventsIn(scope, events[..n]) + if events[n].scope == scope then [events[n]] else []
  }

  /** The calls a scope can notice: its own, and new settings. */
  predicate Concerns(call: Call, scope: string) {
    match call
    case CallEvaluate(s, _, _, _) => s == scope
    case CallForget(s) => s == scope
    case CallLlm(_, _, _, _, _) => scope == LLM_SCOPE
    case CallSettings(_) => true
  }

  function Restrict(calls: seq<Call>, scope: string): seq<Call> {
    if calls == [] then []
    else
      var n := |calls| - 1;
      Restrict(calls[..n], scope) + if Concerns(calls[n], scope) then [calls[n]] else []
  }

  ghost predicate AgreeOn(a: State, b: State, scope: string) {
    a.settings == b.settings && forall key: AlertKey | key.scope == scope :: View(a, key) == View(b, key)
  }

  lemma {:induction false} EventsInAppend(scope: string, a: seq<AlertEvent>, b: seq<AlertEvent>)
    ensures EventsIn(scope, a + b) == EventsIn(scope, a) + EventsIn(scope, b)
  {
    if b == [] {
      assert a + b == a;
    } else {
      var n := |b| - 1;
      EventsInAppend(scope, a, b[..n]);
      assert (a + b)[..|a| + n] == a + b[..n] && (a + b)[|a| + n] == b[n];
    }
  }

  lemma {:induction false} AllIn(scope: string, other: string, events: seq<AlertEvent>)
    requires forall e | e in events :: e.scope == other
    ensures EventsIn(scope, events) == if scope == other then events else []
  {
    if events != [] {
      var n := |events| - 1;
      AllIn(scope, other, events[..n]);
      assert events == events[..n] + [events[n]];
    }
  }

  lemma {:induction false} AppliedInScope(st: State, scope: string, host: string, checks: seq<Check>, now: nat, cooldown: nat)
    ensures forall e | e in ApplyAll(st, scope, host, checks, now, cooldown).1 :: e.scope == scope
  {
    if checks != [] {
      var n := |checks| - 1;
      AppliedInScope(st, scope, host, checks[..n], now, cooldown);
      var (before, events) := ApplyAll(st, scope, host, checks[..n], now, cooldown);
      var event := ApplyCheck(before, scope, host, checks[n], now, cooldown).1;
      assert ApplyAll(st, scope, host, checks, now, cooldown).1 == events + AsSeq(event);
    }
  }

  function ScopeOf(call: Call): string {
    match call
    case CallEvaluate(scope, _, _, _) => scope
    case CallForget(scope) => scope
    case _ => LLM_SCOPE
  }

  lemma EventsInScope(st: State, call: Call)
    ensures forall e | e in Do(st, call).1 :: e.scope == ScopeOf(call)
  {
    if call.CallEvaluate? {
      AppliedInScope(st, call.scope, call.host, ChecksFor(st.settings, call.input), call.now, st.settings.cooldownSecs);
    }
  }

  /** A call of another scope is invisible to this one. */
  lemma OthersUnseen(st: State, call: Call, scope: string)
    requires !Concerns(call, scope)
    ensures AgreeOn(Do(st, call).0, st, scope)
    ensures EventsIn(scope, Do(st, call).1) == []
  {
    EventsInScope(st, call);
    AllIn(scope, ScopeOf(call), Do(st, call).1);
    CallProjects(st, call, AlertKey(scope, Memory, ""));
    forall key: AlertKey | key.scope == scope
      ensures View(Do(st, call).0, key) == View(st, key)
    {
      CallProjects(st, call, key);
    }
  }

  lemma {:induction false} AppliedAlike(a: State, b: State, scope: string, host: string, checks: seq<Check>, now: nat, cooldown: nat)
    requires AgreeOn(a, b, scope)
    ensures AgreeOn(ApplyAll(a, scope, host, checks, now, cooldown).0, ApplyAll(b, scope, host, checks, now, cooldown).0, scope)
    ensures ApplyAll(a, scope, host, checks, now, cooldown).1 == ApplyAll(b, scope, host, checks, now, cooldown).1
  {
    if checks != [] {
      var n := |checks| - 1;
      AppliedAlike(a, b, scope, host, checks[..n], now, cooldown);
      OneAlike(ApplyAll(a, scope, host, checks[..n], now, cooldown).0,
               ApplyAll(b, scope, host, checks[..n], now, cooldown).0, scope, host, checks[n], now, cooldown);
    }
  }

  lemma UntrackedProjects(st: State, scope: string, host: string, check: Check, now: nat, cooldown: nat, key: AlertKey)
    ensures var (after, event) := ApplyCheck(st, scope, host, check, now, cooldown);
      var (ks, keyEvent) := KeyStep(key, View(st, key), Apply(host, check, Some(check.threshold), now, cooldown));
      && after.settings == st.settings
      && (if key == KeyOf(scope, check) then
            View(after, key) == ks.(active := View(st, key).active) && event == keyEvent
          else View(after, key) == View(st, key))
  {
  }

  lemma OneAlike(a: State, b: State, scope: string, host: string, check: Check, now: nat, cooldown: nat)
    requires AgreeOn(a, b, scope)
    ensures AgreeOn(ApplyCheck(a, scope, host, check, now, cooldown).0, ApplyCheck(b, scope, host, check, now, cooldown).0, scope)
    ensures ApplyCheck(a, scope, host, check, now, cooldown).1 == ApplyCheck(b, scope, host, check, now, cooldown).1
  {
    UntrackedProjects(a, scope, host, check, now, cooldown, KeyOf(scope, check));
    UntrackedProjects(b, scope, host, check, now, cooldown, KeyOf(scope, check));
    forall k: AlertKey | k.scope == scope
      ensures View(ApplyCheck(a, scope, host, check, now, cooldown).0, k)
              == View(ApplyCheck(b, scope, host, check, now, cooldown).0, k)
    {
      UntrackedProjects(a, scope, host, check, now, cooldown, k);
      UntrackedProjects(b, scope, host, check, now, cooldown, k);
    }
  }

  /** A call of this scope sees only this scope. */
  lemma OwnAlike(a: State, b: State, call: Call, scope: string)
    requires AgreeOn(a, b, scope) && Concerns(call, scope)
    ensures AgreeOn(Do(a, call).0, Do(b, call).0, scope)
    ensures Do(a, call).1 == Do(b, call).1
  {
    forall key: AlertKey | key.scope == scope
      ensures View(Do(a, call).0, key) == View(Do(b, call).0, key)
    {
      assert View(a, key) == View(b, key);
      CallProjects(a, call, key);
      CallProjects(b, call, key);
    }
    CallProjects(a, call, AlertKey(scope, Memory, ""));
    CallProjects(b, call, AlertKey(scope, Memory, ""));
    match call
    case CallEvaluate(s, host, input, now) =>
      AppliedAlike(a, b, s, host, ChecksFor(a.settings, input), now, a.settings.cooldownSecs);
    case CallLlm(instance, name, from, to, now) =>
      OneAlike(a, b, LLM_SCOPE, name, LlmCheck(instance, LlmFired(from, to), LlmResolved(from, to)), now, a.settings.cooldownSecs);
    case _ =>
  }

  /** Dropping every other scope's calls from a run changes nothing for a scope: the
      same events in the same order, and the same phases, cooldowns and `active`. */
  lemma {:induction false} ScopesDoNotInterfere(s0: AlertSettings, calls: seq<Call>, scope: string)
    ensures AgreeOn(Run(s0, calls).0, Run(s0, Restrict(calls, scope)).0, scope)
    ensures EventsIn(scope, Run(s0, calls).1) == EventsIn(scope, Run(s0, Restrict(calls, scope)).1)
  {
    if calls != [] {
      var n := |calls| - 1;
      ScopesDoNotInterfere(s0, calls[..n], scope);
      var (st, events) := Run(s0, calls[..n]);
      var kept := Restrict(calls[..n], scope);
      EventsInAppend(scope, events, Do(st, calls[n]).1);
      if Concerns(calls[n], scope) {
        var (own, ownEvents) := Run(s0, kept);
        OwnAlike(st, own, calls[n], scope);
        assert (kept + [calls[n]])[..|kept|] == kept;
        EventsInAppend(scope, ownEvents, Do(own, calls[n]).1);
      } else {
        OthersUnseen(st, calls[n], scope);
        assert Restrict(calls, scope) == kept;
      }
    }
  }

  /** Forgetting a scope makes each of its keys as new but for the cooldown memory, and
      touches no other scope. */
  lemma ForgetIsLocal(st: State, scope: string, key: AlertKey)
    ensures View(ForgetScope(st, scope), key) ==
            if key.scope == scope then NEW_KEY.(lastNotified := View(st, key).lastNotified) else View(st, key)
  {
  }
}
