/** What the engine emits for a key between two resets, over every run: the documented
    changes of the key's readings, one event each; and for threshold rules the values
    behind them. */
module AlertEpisodes {
  import opened Wrappers
  import opened Floats
  import opened AlertRules
  import opened Matches
  import opened AlertHistory
  import opened AlertState
  import opened AlertKeyed
  import opened AlertProjection
  import opened AlertRuns
  import opened AlertReadings

  // --- One event for each change ---

  /** The events are those of the changes `cs` of `rs`: one each, of that kind, at that
      reading's time. */
  ghost predicate EventsAre(events: seq<AlertEvent>, rs: seq<Reading>, cs: seq<nat>) {
    && |events| == |cs|
    && forall c: nat | c < |cs| :: cs[c] < |rs| && events[c].at == rs[cs[c]].now && events[c].fired == (c % 2 == 0)
  }

  lemma {:induction false} EventsAreChanges(key: AlertKey, ops: seq<KeyOp>, n: nat)
    requires n <= |ops|
    ensures var rs := ReadingsSince(ops, n); EventsAre(EventsSince(key, ops, n), rs, Changes(rs, |rs|))
  {
    hide EventsAre, KeyStep, KeyAt, StepOn, PhaseAt, Changes;
    if n == 0 || !ops[n - 1].Apply? {
      NoEventsYet();
    } else {
      EventsAreChanges(key, ops, n - 1);
      KeyIsHistory(key, ops, n - 1);
      EventsAlternate(key, ops, n);
      var before, rs := ReadingsSince(ops, n - 1), ReadingsSince(ops, n);
      assert rs == before + [ReadingOf(ops[n - 1])];
      PhasePrefix(before, rs, |before|);
      NextChange(key, KeyAt(key, ops, n - 1), ops[n - 1], before, rs);
      EventsAreGrown(EventsSince(key, ops, n - 1), EventAt(key, ops, n - 1), before, rs, Changes(before, |before|));
    }
  }

  lemma NoEventsYet()
    ensures EventsAre([], [], Changes([], 0))
  {
  }

  lemma EventsAreGrown(events: seq<AlertEvent>, event: Option<AlertEvent>, before: seq<Reading>, rs: seq<Reading>, cs: seq<nat>)
    requires EventsAre(events, before, cs) && |rs| == |before| + 1 && rs[..|before|] == before
    requires event.Some? ==> event.value.at == rs[|before|].now
    requires forall c: nat | c < |events + AsSeq(event)| :: (events + AsSeq(event))[c].fired == (c % 2 == 0)
    ensures EventsAre(events + AsSeq(event), rs, cs + if event.Some? then [|before|] else [])
  {
    assert forall i | 0 <= i < |before| :: rs[i] == before[i];
  }

  /** A reading that changes the phase makes the key emit, at that time, and no other does. */
  lemma NextChange(key: AlertKey, ks: KeyState, op: KeyOp, before: seq<Reading>, rs: seq<Reading>)
    requires op.Apply? && rs == before + [ReadingOf(op)] && ks.phase == PhaseAt(before, |before|)
    requires PhaseAt(rs, |before|) == PhaseAt(before, |before|) && Changes(rs, |before|) == Changes(before, |before|)
    ensures var event := KeyStep(key, ks, op).1;
      && Changes(rs, |rs|) == Changes(before, |before|) + (if event.Some? then [|before|] else [])
      && (event.Some? ==> event.value.at == rs[|before|].now)
  {
    assert TransitionAt(rs, |before|) == StepOn(ks.phase, ReadingOf(op)).1;
  }

  /** After every run the latest events of a key are exactly the documented changes of its
      readings since the last reset: nothing else is emitted, and nothing is left out. */
  lemma EventsAreDescribed(s0: AlertSettings, calls: seq<Call>, key: AlertKey)
    ensures var rs := Readings(s0, calls, key);
      var ops := Ops(s0, calls, key);
      var cs, since := Changes(rs, |rs|), EventsSince(key, ops, |ops|);
      && AreMatches(ChangeRule(rs), |rs|, cs)
      && EventsAre(since, rs, cs)
      && exists early :: EventsOf(key, Run(s0, calls).1) == early + since
  {
    var ops := Ops(s0, calls, key);
    PhasesAreHistories(s0, calls, key);
    EventsAreChanges(key, ops, |ops|);
    RunEventsAlternate(s0, calls, key);
    hide Run, Ops, EventsAre, AreMatches, ChangeRule, Changes, EventsSince, ReadingsSince;
  }

  // --- The values behind the events of a threshold rule ---

  function FloorOf(kind: AlertKind): real {
    if kind == GpuTemp then 30.0 else 1.0
  }

  function CeilingOf(kind: AlertKind): real {
    if kind == GpuTemp then 120.0 else 100.0
  }

  predicate IsRuleOp(op: KeyOp, rule: ThresholdRule) {
    op.Apply? ==> IsRuleCheck(op.check, rule)
  }

  lemma {:induction false} GpuChecksAreRules(s: AlertSettings, gpus: seq<GpuInput>, kind: AlertKind)
    requires RuleFor(s, kind).Some?
    ensures forall c | c in GpuChecks(s, gpus) && c.kind == kind :: IsRuleCheck(c, RuleFor(s, kind).value)
  {
    if gpus != [] {
      GpuChecksAreRules(s, gpus[..|gpus| - 1], kind);
    }
  }

  lemma {:induction false} DiskChecksAreRules(s: AlertSettings, disks: seq<(string, Option<Float>)>, kind: AlertKind)
    requires RuleFor(s, kind).Some?
    ensures forall c | c in DiskChecks(s, disks) && c.kind == kind :: IsRuleCheck(c, RuleFor(s, kind).value)
  {
    if disks != [] {
      DiskChecksAreRules(s, disks[..|disks| - 1], kind);
    }
  }

  lemma ChecksAreRules(s: AlertSettings, input: AlertInput, kind: AlertKind)
    requires RuleFor(s, kind).Some?
    ensures forall c | c in ChecksFor(s, input) && c.kind == kind :: IsRuleCheck(c, RuleFor(s, kind).value)
  {
    GpuChecksAreRules(s, input.gpus, kind);
    DiskChecksAreRules(s, input.disks, kind);
    hide GpuChecks, DiskChecks;
  }

  lemma {:induction false} CheckOpsAreRules(key: AlertKey, host: string, checks: seq<Check>, now: nat, cooldown: nat, rule: ThresholdRule)
    requires forall c | c in checks && c.kind == key.kind :: IsRuleCheck(c, rule)
    ensures forall op | op in CheckOps(key, host, checks, now, cooldown) :: IsRuleOp(op, rule)
  {
    hide IsRuleCheck;
    if checks != [] {
      var n := |checks| - 1;
      assert checks[n] in checks;
      CheckOpsAreRules(key, host, checks[..n], now, cooldown, rule);
    }
  }

  lemma CallOpsAreRules(s: AlertSettings, call: Call, key: AlertKey)
    requires RuleFor(s, key.kind).Some?
    ensures forall op | op in OpsFor(s, call, key) :: IsRuleOp(op, RuleFor(s, key.kind).value)
    ensures !call.CallSettings? || OpsFor(s, call, key) == [Reset]
  {
    if call.CallEvaluate? {
      ChecksAreRules(s, call.input, key.kind);
      CheckOpsAreRules(key, call.host, ChecksFor(s, call.input), call.now, s.cooldownSecs, RuleFor(s, key.kind).value);
    }
  }

  /** Every rule application since the last reset applies `rule`. */
  ghost predicate RuleOpsSince(ops: seq<KeyOp>, n: nat, rule: ThresholdRule)
    requires n <= |ops|
  {
    n > 0 && ops[n - 1].Apply? ==> IsRuleOp(ops[n - 1], rule) && RuleOpsSince(ops, n - 1, rule)
  }

  lemma {:induction false} RuleOpsPrefix(a: seq<KeyOp>, ops: seq<KeyOp>, n: nat, rule: ThresholdRule)
    requires n <= |a| <= |ops| && a == ops[..|a|]
    ensures RuleOpsSince(a, n, rule) <==> RuleOpsSince(ops, n, rule)
  {
    if n > 0 {
      assert a[n - 1] == ops[n - 1];
      RuleOpsPrefix(a, ops, n - 1, rule);
    }
  }

  lemma {:induction false} RuleOpsGrow(a: seq<KeyOp>, b: seq<KeyOp>, ops: seq<KeyOp>, n: nat, rule: ThresholdRule)
    requires ops == a + b && |a| <= n <= |ops| && RuleOpsSince(a, |a|, rule)
    requires forall op | op in b :: IsRuleOp(op, rule)
    ensures RuleOpsSince(ops, n, rule)
  {
    if n == |a| {
      RuleOpsPrefix(a, ops, n, rule);
    } else {
      assert ops[n - 1] == b[n - 1 - |a|];
      RuleOpsGrow(a, b, ops, n - 1, rule);
    }
  }

  /** Since the last reset a threshold key has met only the rule of the settings in force. */
  lemma {:induction false} RunAppliesRule(s0: AlertSettings, calls: seq<Call>, key: AlertKey)
    requires RuleFor(s0, key.kind).Some?
    ensures var ops := Ops(s0, calls, key);
      RuleOpsSince(ops, |ops|, RuleFor(SettingsAfter(s0, calls), key.kind).value)
  {
    if calls != [] {
      hide IsRuleOp, OpsFor;
      var n := |calls| - 1;
      var s := SettingsAfter(s0, calls[..n]);
      var a, b, ops := Ops(s0, calls[..n], key), OpsFor(s, calls[n], key), Ops(s0, calls, key);
      RunAppliesRule(s0, calls[..n], key);
      CallOpsAreRules(s, calls[n], key);
      if calls[n].CallSettings? {
        assert ops[|ops| - 1] == Reset;
      } else {
        RuleOpsGrow(a, b, ops, |ops|, RuleFor(s, key.kind).value);
      }
    }
  }

  lemma {:induction false} ReadingsAreOfRule(ops: seq<KeyOp>, n: nat, rule: ThresholdRule)
    requires n <= |ops| && RuleOpsSince(ops, n, rule)
    ensures ReadingsSince(ops, n) == ReadingsOf(rule, ValuesSince(ops, n))
  {
    if n > 0 && ops[n - 1].Apply? {
      ReadingsAreOfRule(ops, n - 1, rule);
      ReadingsOfSnoc(rule, ValuesSince(ops, n - 1), ops[n - 1].check.value, ops[n - 1].now);
    }
  }

  lemma ReadingsOfSnoc(rule: ThresholdRule, samples: seq<(Option<Float>, nat)>, value: Option<Float>, now: nat)
    ensures ReadingsOf(rule, samples + [(value, now)]) == ReadingsOf(rule, samples) +
      [Reading(if value.None? then None else Some(Breaches(rule, value.value)),
               if value.None? then None else Some(Clears(rule, value.value)), rule.sustainSecs, now)]
  {
    hide Breaches, Clears;
  }

  function Fired(events: seq<AlertEvent>): nat {
    if events == [] then 0 else Fired(events[..|events| - 1]) + if events[|events| - 1].fired then 1 else 0
  }

  lemma {:induction false} HalfFired(events: seq<AlertEvent>)
    requires forall c: nat | c < |events| :: events[c].fired == (c % 2 == 0)
    ensures Fired(events) == (|events| + 1) / 2
  {
    if events != [] {
      HalfFired(events[..|events| - 1]);
    }
  }

  lemma {:induction false} FiresAreHalf(rs: seq<Reading>, n: nat)
    requires n <= |rs|
    ensures Fires(rs, n) == (|Changes(rs, n)| + 1) / 2
  {
    if n > 0 {
      FiresAreHalf(rs, n - 1);
      TransitionsAlternate(rs, n - 1);
      TransitionsAlternate(rs, n);
      FiringFires(PhaseAt(rs, n - 1), rs[n - 1]);
      hide StepOn;
    }
  }

  /** Over every run the readings of a threshold key since its last reset are the values of its
      own subject that the calls of its scope brought, judged by the rule in force. */
  lemma ReadingsAreOwn(s0: AlertSettings, calls: seq<Call>, key: AlertKey)
    requires key.kind in {GpuTemp, GpuVram, Memory, Disk}
    ensures Readings(s0, calls, key) == ReadingsOf(RuleFor(SettingsAfter(s0, calls), key.kind).value, RunReads(s0, calls, key))
  {
    var ops := Ops(s0, calls, key);
    RunAppliesRule(s0, calls, key);
    ReadingsAreOfRule(ops, |ops|, RuleFor(SettingsAfter(s0, calls), key.kind).value);
    RunReadsOwn(s0, calls, key);
  }

  /** Over every run, under sanitised settings: since its last reset a threshold key has
      fired at most once more than the readings of its subject have descended from its
      threshold to below the threshold less the hysteresis. */
  lemma RunFiresNeedDescents(s0: AlertSettings, calls: seq<Call>, key: AlertKey)
    requires key.kind in {GpuTemp, GpuVram, Memory, Disk} && InRange(SettingsAfter(s0, calls))
    ensures var ops := Ops(s0, calls, key);
      var rule, values := RuleFor(SettingsAfter(s0, calls), key.kind).value, RunReads(s0, calls, key);
      && FiniteRule(rule)
      && Fired(EventsSince(key, ops, |ops|)) <= 1 + Descents(values, rule.threshold.r, rule.threshold.r - rule.hysteresis.r, |values|).0
  {
    var ops := Ops(s0, calls, key);
    var rule := RuleFor(SettingsAfter(s0, calls), key.kind).value;
    ReadingsAreOwn(s0, calls, key);
    var rs := ReadingsSince(ops, |ops|);
    EventsAreChanges(key, ops, |ops|);
    HalfFired(EventsSince(key, ops, |ops|));
    FiresAreHalf(rs, |rs|);
    assert RuleInRange(rule, FloorOf(key.kind), CeilingOf(key.kind));
    hide Ops, SettingsAfter, InRange, RuleFor, Descents, Fires, Changes, RunReads, ReadingsSince;
    FiresNeedDescents(rule, FloorOf(key.kind), CeilingOf(key.kind), RunReads(s0, calls, key));
  }

  /** Over every run: between two fired events of a threshold key since its last reset, a
      reading of its subject was below the threshold less the hysteresis, after the one event and
      before the other; both events were sent at readings at or over the threshold. */
  lemma RunRefireNeedsClear(s0: AlertSettings, calls: seq<Call>, key: AlertKey, c: nat, d: nat)
    returns (i: nat, m: nat, j: nat)
    requires key.kind in {GpuTemp, GpuVram, Memory, Disk}
    requires var ops := Ops(s0, calls, key);
      var since := EventsSince(key, ops, |ops|); c < d < |since| && since[c].fired && since[d].fired
    ensures var ops := Ops(s0, calls, key);
      var rule := RuleFor(SettingsAfter(s0, calls), key.kind).value;
      var values, since := RunReads(s0, calls, key), EventsSince(key, ops, |ops|);
      && i < m < j < |values| && since[c].at == values[i].1 && since[d].at == values[j].1
      && AtThreshold(rule, values[i].0) && BelowBand(rule, values[m].0) && AtThreshold(rule, values[j].0)
  {
    var ops := Ops(s0, calls, key);
    var rule := RuleFor(SettingsAfter(s0, calls), key.kind).value;
    ReadingsAreOwn(s0, calls, key);
    var rs := ReadingsSince(ops, |ops|);
    EventsAreChanges(key, ops, |ops|);
    TransitionsAlternate(rs, |rs|);
    ChangesAscend(rs, |rs|);
    i, j := Changes(rs, |rs|)[c], Changes(rs, |rs|)[d];
    hide Ops, SettingsAfter, RuleFor, Changes, TransitionAt, EventsSince, RunReads;
    m := RefireNeedsClear(rule, RunReads(s0, calls, key), i, j);
  }

  lemma {:induction false} ChangesAscend(rs: seq<Reading>, n: nat)
    requires n <= |rs|
    ensures forall c: nat, d: nat | c < d < |Changes(rs, n)| :: Changes(rs, n)[c] < Changes(rs, n)[d]
    ensures forall c: nat | c < |Changes(rs, n)| :: Changes(rs, n)[c] < n
  {
    hide TransitionAt;
    if n > 0 {
      ChangesAscend(rs, n - 1);
    }
  }
}
