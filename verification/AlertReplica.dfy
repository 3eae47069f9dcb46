/** The window's copy of the active alerts (`src/stores/alertStore.ts`), fed by the
    engine's events, against the engine's own `active`. */
module AlertReplica {
  import opened Wrappers
  import opened AlertRules
  import opened AlertState
  import opened AlertProjection

  const RECENT_LIMIT := 50

  type Active = map<string, map<string, AlertEvent>>

  /** The kind as it is serialised, in kebab case. */
  function KindName(kind: AlertKind): string {
    match kind
    case GpuTemp => "gpu-temp"
    case GpuVram => "gpu-vram"
    case GpuIdle => "gpu-idle"
    case Memory => "memory"
    case Disk => "disk"
    case LlmCritical => "llm-critical"
  }

  function RuleKey(kind: AlertKind, subject: string): string {
    KindName(kind) + ":" + subject
  }

  function ScopeRecord(active: Active, scope: string): map<string, AlertEvent> {
    if scope in active then active[scope] else map[]
  }

  function Push(active: Active, event: AlertEvent): Active {
    var scope := ScopeRecord(active, event.scope);
    var rule := RuleKey(event.kind, event.subject);
    active[event.scope := if event.fired then scope[rule := event] else scope - {rule}]
  }

  function PushAll(active: Active, events: seq<AlertEvent>): Active {
    if events == [] then active
    else Push(PushAll(active, events[..|events| - 1]), events[|events| - 1])
  }

  function Newest(recent: seq<AlertEvent>, event: AlertEvent): seq<AlertEvent> {
    var all := [event] + recent;
    if |all| <= RECENT_LIMIT then all else all[..RECENT_LIMIT]
  }

  /** The list after all of `events` were pushed on an empty one. */
  function Recent(events: seq<AlertEvent>): seq<AlertEvent> {
    if events == [] then [] else Newest(Recent(events[..|events| - 1]), events[|events| - 1])
  }

  /** The list holds the last fifty events there were, all of them while there are fewer, and
      the newest first. */
  lemma {:induction false} RecentIsNewest(events: seq<AlertEvent>)
    ensures |Recent(events)| == (if |events| < 50 then |events| else 50)
    ensures forall i | 0 <= i < |Recent(events)| :: Recent(events)[i] == events[|events| - 1 - i]
  {
    if events != [] {
      RecentIsNewest(events[..|events| - 1]);
    }
  }

  class AlertStore {
    var recent: seq<AlertEvent>
    var active: Active

    constructor ()
      ensures recent == [] && active == map[]
    {
      recent, active := [], map[];
    }

    method PushEvent(event: AlertEvent)
      modifies this
      ensures active == Push(old(active), event) && recent == Newest(old(recent), event)
    {
      var scope := if event.scope in active then active[event.scope] else map[];
      if event.fired {
        scope := scope[RuleKey(event.kind, event.subject) := event];
      } else {
        scope := scope - {RuleKey(event.kind, event.subject)};
      }
      var all := [event] + recent;
      recent := if |all| > 50 then all[..50] else all;
      active := active[event.scope := scope];
    }
  }

  /** The number on a scope's badge. */
  function ActiveAlertCount(active: Active, scope: Option<string>): nat {
    if scope.None? then 0 else |ScopeRecord(active, scope.value)|
  }

  // --- Keys of the record ---

  lemma NameHasNoColon(kind: AlertKind)
    ensures forall i | 0 <= i < |KindName(kind)| :: KindName(kind)[i] != ':'
  {
  }

  lemma FirstColon(kind: AlertKind, subject: string, i: nat)
    requires i < |RuleKey(kind, subject)| && RuleKey(kind, subject)[i] == ':'
    ensures i >= |KindName(kind)|
  {
    NameHasNoColon(kind);
    assert forall j | 0 <= j < |KindName(kind)| :: RuleKey(kind, subject)[j] == KindName(kind)[j];
  }

  /** Two alerts share a rule key only if they are the same kind and subject. */
  lemma RuleKeyInjective(k1: AlertKind, s1: string, k2: AlertKind, s2: string)
    requires RuleKey(k1, s1) == RuleKey(k2, s2)
    ensures k1 == k2 && s1 == s2
  {
    NameHasNoColon(k1);
    NameHasNoColon(k2);
    var n1, n2 := KindName(k1), KindName(k2);
    var key := RuleKey(k1, s1);
    assert key[|n1|] == ':' && key[|n2|] == ':';
    FirstColon(k1, s1, |n2|);
    FirstColon(k2, s2, |n1|);
    assert key[..|n1|] == n1 && key[..|n2|] == n2;
    assert key[|n1| + 1..] == s1 && key[|n2| + 1..] == s2;
  }

  // --- Agreement with the engine ---

  function Lookup(active: Active, key: AlertKey): Option<AlertEvent> {
    var scope := ScopeRecord(active, key.scope);
    var rule := RuleKey(key.kind, key.subject);
    if rule in scope then Some(scope[rule]) else None
  }

  function EngineLookup(active: map<AlertKey, AlertEvent>, key: AlertKey): Option<AlertEvent> {
    if key in active then Some(active[key]) else None
  }

  /** The keys the store holds for a scope are the rule keys of the engine's. */
  ghost predicate SameRules(store: Active, engine: map<AlertKey, AlertEvent>, scope: string) {
    ScopeRecord(store, scope).Keys == set k | k in engine && k.scope == scope :: RuleKey(k.kind, k.subject)
  }

  ghost predicate Agree(store: Active, engine: map<AlertKey, AlertEvent>) {
    && (forall key :: Lookup(store, key) == EngineLookup(engine, key))
    && (forall scope :: SameRules(store, engine, scope))
  }

  lemma PushAgrees(store: Active, engine: map<AlertKey, AlertEvent>, event: AlertEvent)
    requires Agree(store, engine)
    ensures Agree(Push(store, event), TrackOne(engine, event))
  {
    var rule := RuleKey(event.kind, event.subject);
    forall key
      ensures Lookup(Push(store, event), key) == EngineLookup(TrackOne(engine, event), key)
    {
      assert Lookup(store, key) == EngineLookup(engine, key);
      if key.scope == event.scope && RuleKey(key.kind, key.subject) == rule {
        RuleKeyInjective(key.kind, key.subject, event.kind, event.subject);
      }
    }
    forall scope
      ensures SameRules(Push(store, event), TrackOne(engine, event), scope)
    {
      assert SameRules(store, engine, scope);
      PushKeepsRules(store, engine, event, scope);
    }
  }

  lemma PushKeepsRules(store: Active, engine: map<AlertKey, AlertEvent>, event: AlertEvent, scope: string)
    requires SameRules(store, engine, scope)
    ensures SameRules(Push(store, event), TrackOne(engine, event), scope)
  {
    var after := ScopeRecord(Push(store, event), scope).Keys;
    var tracked := TrackOne(engine, event);
    var rules := set k | k in tracked && k.scope == scope :: RuleKey(k.kind, k.subject);
    forall r | r in after
      ensures r in rules
    {
      if scope == event.scope && event.fired && r == RuleKey(event.kind, event.subject) {
        assert EventKey(event) in tracked;
      } else {
        var k :| k in engine && k.scope == scope && r == RuleKey(k.kind, k.subject);
        assert k in tracked;
      }
    }
    forall r | r in rules
      ensures r in after
    {
      var k :| k in tracked && k.scope == scope && r == RuleKey(k.kind, k.subject);
      if k != EventKey(event) {
        assert k in engine;
        if scope == event.scope && r == RuleKey(event.kind, event.subject) {
          RuleKeyInjective(k.kind, k.subject, event.kind, event.subject);
        }
      }
    }
  }

  lemma {:induction false} PushAllAgrees(store: Active, engine: map<AlertKey, AlertEvent>, events: seq<AlertEvent>)
    requires Agree(store, engine)
    ensures Agree(PushAll(store, events), Track(engine, events))
  {
    if events != [] {
      var n := |events| - 1;
      PushAllAgrees(store, engine, events[..n]);
      PushAgrees(PushAll(store, events[..n]), Track(engine, events[..n]), events[n]);
    }
  }

  /** The store after a run whose every event was pushed, in order. */
  function Replica(s0: AlertSettings, calls: seq<Call>): Active {
    if calls == [] then map[]
    else
      var n := |calls| - 1;
      PushAll(Replica(s0, calls[..n]), Do(Run(s0, calls[..n]).0, calls[n]).1)
  }

  lemma CallTracks(st: State, call: Call)
    requires !call.CallForget?
    ensures Do(st, call).0.active == Track(st.active, Do(st, call).1)
  {
    if call.CallEvaluate? {
      TrackingCommutes(st, call.scope, call.host, ChecksFor(st.settings, call.input), call.now, st.settings.cooldownSecs);
    }
  }

  /** Over every run in which no scope is forgotten, pushing the engine's events in
      order keeps the store equal to the engine's `active`, scope by scope. */
  lemma {:induction false} ReplicaAgrees(s0: AlertSettings, calls: seq<Call>)
    requires forall i | 0 <= i < |calls| :: !calls[i].CallForget?
    ensures Agree(Replica(s0, calls), Run(s0, calls).0.active)
  {
    if calls != [] {
      var n := |calls| - 1;
      ReplicaAgrees(s0, calls[..n]);
      var st := Run(s0, calls[..n]).0;
      CallTracks(st, calls[n]);
      PushAllAgrees(Replica(s0, calls[..n]), st.active, Do(st, calls[n]).1);
    }
  }

  /** Forgetting a scope sends no event: a store that agreed still does exactly when
      the scope had nothing active. */
  lemma ForgetBreaksReplica(store: Active, st: State, scope: string)
    requires Agree(store, st.active)
    ensures Agree(store, ForgetScope(st, scope).active) <==> forall key | key in st.active :: key.scope != scope
  {
    var after := ForgetScope(st, scope).active;
    if forall key | key in st.active :: key.scope != scope {
      assert after == st.active;
    } else {
      var key :| key in st.active && key.scope == scope;
      assert Lookup(store, key) == EngineLookup(st.active, key);
      assert EngineLookup(after, key).None?;
    }
  }

  /** The badge counts exactly the engine's active alerts of the scope. */
  lemma CountsAgree(store: Active, engine: map<AlertKey, AlertEvent>, scope: string)
    requires Agree(store, engine)
    ensures ActiveAlertCount(store, Some(scope)) == |set k | k in engine && k.scope == scope|
  {
    assert SameRules(store, engine, scope);
    var keys := set k | k in engine && k.scope == scope;
    var rules := set k | k in keys :: RuleKey(k.kind, k.subject);
    assert rules == ScopeRecord(store, scope).Keys;
    RulesCount(keys, scope);
  }

  lemma {:induction false} RulesCount(keys: set<AlertKey>, scope: string)
    requires forall k | k in keys :: k.scope == scope
    ensures |set k | k in keys :: RuleKey(k.kind, k.subject)| == |keys|
    decreases |keys|
  {
    var rules := set k | k in keys :: RuleKey(k.kind, k.subject);
    if keys == {} {
      assert rules == {};
    } else {
      var one :| one in keys;
      var rest := keys - {one};
      RulesCount(rest, scope);
      var others := set k | k in rest :: RuleKey(k.kind, k.subject);
      var rule := RuleKey(one.kind, one.subject);
      assert rule !in others by {
        if rule in others {
          var k :| k in rest && RuleKey(k.kind, k.subject) == rule;
          RuleKeyInjective(k.kind, k.subject, one.kind, one.subject);
        }
      }
      assert rules == others + {rule};
    }
  }
}
