/** The events reach the window from a thread for each batch (`deliver`,
    `src-tauri/src/alerts.rs`), so one batch can overtake another. What the window's copy of
    the active alerts then is. */
module AlertDelivery {
  import opened Wrappers
  import opened AlertRules
  import opened AlertState
  import opened AlertProjection
  import opened AlertReplica

  /** The last event of `key` in the list, if it fired. */
  function Standing(key: AlertKey, events: seq<AlertEvent>): Option<AlertEvent> {
    var own := EventsOf(key, events);
    if own != [] && own[|own| - 1].fired then Some(own[|own| - 1]) else None
  }

  lemma {:induction false} TrackedIsStanding(events: seq<AlertEvent>, key: AlertKey)
    ensures EngineLookup(Track(map[], events), key) == Standing(key, events)
  {
    if events != [] {
      TrackedIsStanding(events[..|events| - 1], key);
    }
  }

  lemma {:induction false} TrackAppend(active: map<AlertKey, AlertEvent>, a: seq<AlertEvent>, b: seq<AlertEvent>)
    ensures Track(active, a + b) == Track(Track(active, a), b)
  {
    if b == [] {
      assert a + b == a;
    } else {
      var n := |b| - 1;
      TrackAppend(active, a, b[..n]);
      assert (a + b)[..|a| + n] == a + b[..n] && (a + b)[|a| + n] == b[n];
    }
  }

  lemma {:induction false} ActiveIsTracked(s0: AlertSettings, calls: seq<Call>)
    requires forall i | 0 <= i < |calls| :: !calls[i].CallForget?
    ensures Run(s0, calls).0.active == Track(map[], Run(s0, calls).1)
  {
    if calls != [] {
      var n := |calls| - 1;
      var (before, events) := Run(s0, calls[..n]);
      ActiveIsTracked(s0, calls[..n]);
      CallTracks(before, calls[n]);
      TrackAppend(map[], events, Do(before, calls[n]).1);
      hide Do, Track;
    }
  }

  /** In whatever order the events of a run reach the window, and whichever of them do, its
      copy equals the engine's `active` exactly when, for every key, the last event delivered
      and the last one emitted are the same or neither is a fired one. */
  lemma DeliveredAgrees(s0: AlertSettings, calls: seq<Call>, delivered: seq<AlertEvent>)
    requires forall i | 0 <= i < |calls| :: !calls[i].CallForget?
    ensures var (st, emitted) := Run(s0, calls);
      Agree(PushAll(map[], delivered), st.active) <==> forall key :: Standing(key, delivered) == Standing(key, emitted)
  {
    var (st, emitted) := Run(s0, calls);
    var store, tracked := PushAll(map[], delivered), Track(map[], delivered);
    ActiveIsTracked(s0, calls);
    NothingAgrees();
    PushAllAgrees(map[], map[], delivered);
    hide Run, PushAll, Track, Standing, SameRules, Lookup;
    forall key
      ensures EngineLookup(tracked, key) == Standing(key, delivered) && EngineLookup(st.active, key) == Standing(key, emitted)
    {
      TrackedIsStanding(delivered, key);
      TrackedIsStanding(emitted, key);
    }
    if forall key :: Standing(key, delivered) == Standing(key, emitted) {
      SameMaps(tracked, st.active);
    } else {
      var key :| Standing(key, delivered) != Standing(key, emitted);
      assert Lookup(store, key) == EngineLookup(tracked, key);
    }
  }

  lemma NothingAgrees()
    ensures Agree(map[], map[])
  {
    assert forall scope :: SameRules(map[], map[], scope);
  }

  lemma SameMaps(a: map<AlertKey, AlertEvent>, b: map<AlertKey, AlertEvent>)
    requires forall key :: EngineLookup(a, key) == EngineLookup(b, key)
    ensures a == b
  {
    forall key
      ensures key in a <==> key in b
      ensures key in a ==> a[key] == b[key]
    {
      assert EngineLookup(a, key) == EngineLookup(b, key);
    }
  }

  /** Events of different keys may overtake each other freely. */
  lemma OrderOfEachKeySuffices(s0: AlertSettings, calls: seq<Call>, delivered: seq<AlertEvent>)
    requires forall i | 0 <= i < |calls| :: !calls[i].CallForget?
    requires forall key :: EventsOf(key, delivered) == EventsOf(key, Run(s0, calls).1)
    ensures Agree(PushAll(map[], delivered), Run(s0, calls).0.active)
  {
    DeliveredAgrees(s0, calls, delivered);
    hide Run, EventsOf, Agree;
  }

  /** Two batches of one key do not: an instance turns critical and healthy again, the second
      batch overtakes the first, and the window shows an alert that the engine has resolved. */
  lemma OvertakenAlertStays(s0: AlertSettings, instance: string, name: string, t: nat, u: nat)
    requires s0.enabled && s0.llmCritical
    ensures var calls := [CallLlm(instance, name, Some(Healthy), Critical, t), CallLlm(instance, name, Some(Critical), Healthy, u)];
      var (st, emitted) := Run(s0, calls);
      && |emitted| == 2 && st.active == map[]
      && Lookup(PushAll(map[], [emitted[1], emitted[0]]), AlertKey(LLM_SCOPE, LlmCritical, instance)) == Some(emitted[0])
  {
    var key := AlertKey(LLM_SCOPE, LlmCritical, instance);
    var calls := [CallLlm(instance, name, Some(Healthy), Critical, t), CallLlm(instance, name, Some(Critical), Healthy, u)];
    var fired := AlertEvent(LLM_SCOPE, name, LlmCritical, instance, true, None, None, t, true);
    var resolved := AlertEvent(LLM_SCOPE, name, LlmCritical, instance, false, None, None, u, false);
    var one := State(s0, map[key := Firing], map[key := t], map[key := fired]);
    TurnsCritical(s0, instance, name, t);
    Recovers(s0, instance, name, t, u);
    hide Do;
    var none: seq<AlertEvent> := [];
    assert calls[..1] == [calls[0]] && calls[..1][..0] == [] && none + [fired] == [fired];
    assert Run(s0, []) == (Initial(s0), []);
    assert Run(s0, [calls[0]]) == (one, [fired]) by {
      assert [calls[0]][..0] == [];
    }
    assert Run(s0, calls).1 == [fired] + [resolved];
    LateFires(resolved, fired);
  }

  lemma TurnsCritical(s0: AlertSettings, instance: string, name: string, t: nat)
    requires s0.enabled && s0.llmCritical
    ensures var key := AlertKey(LLM_SCOPE, LlmCritical, instance);
      var fired := AlertEvent(LLM_SCOPE, name, LlmCritical, instance, true, None, None, t, true);
      Do(Initial(s0), CallLlm(instance, name, Some(Healthy), Critical, t))
      == (State(s0, map[key := Firing], map[key := t], map[key := fired]), [fired])
  {
    var key := AlertKey(LLM_SCOPE, LlmCritical, instance);
    var fired := AlertEvent(LLM_SCOPE, name, LlmCritical, instance, true, None, None, t, true);
    assert EventKey(fired) == key && Track(map[], [fired]) == TrackOne(Track(map[], []), fired);
    hide Track;
  }

  lemma Recovers(s0: AlertSettings, instance: string, name: string, t: nat, u: nat)
    requires s0.enabled && s0.llmCritical
    ensures var key := AlertKey(LLM_SCOPE, LlmCritical, instance);
      var fired := AlertEvent(LLM_SCOPE, name, LlmCritical, instance, true, None, None, t, true);
      var resolved := AlertEvent(LLM_SCOPE, name, LlmCritical, instance, false, None, None, u, false);
      Do(State(s0, map[key := Firing], map[key := t], map[key := fired]), CallLlm(instance, name, Some(Critical), Healthy, u))
      == (State(s0, map[], map[key := t], map[]), [resolved])
  {
    var key := AlertKey(LLM_SCOPE, LlmCritical, instance);
    var fired := AlertEvent(LLM_SCOPE, name, LlmCritical, instance, true, None, None, t, true);
    var resolved := AlertEvent(LLM_SCOPE, name, LlmCritical, instance, false, None, None, u, false);
    assert map[key := fired] - {key} == map[] && map[key := Firing] - {key} == map[];
    assert EventKey(resolved) == key && Track(map[key := fired], []) == map[key := fired];
    assert Track(map[key := fired], [resolved]) == TrackOne(map[key := fired], resolved);
    hide Track;
  }

  lemma LateFires(resolved: AlertEvent, fired: AlertEvent)
    requires fired.fired
    ensures Lookup(PushAll(map[], [resolved, fired]), EventKey(fired)) == Some(fired)
  {
    assert PushAll(map[], [resolved, fired]) == Push(PushAll(map[], [resolved]), fired) by {
      assert [resolved, fired][..1] == [resolved];
    }
    hide PushAll;
  }
}
