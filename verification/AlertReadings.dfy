/** What the engine's rules are given to judge, told from the input of the calls alone: for each
    key the readings of its own subject, and nothing else
    (`src-tauri/src/alerts.rs:267-291` and `417-491`). */
module AlertReadings {
  import opened Wrappers
  import opened Floats
  import opened AlertRules
  import opened AlertState
  import opened AlertKeyed
  import opened AlertProjection
  import opened AlertRuns

  // --- What an input says about a subject ---

  /** The GPUs of an input that have this key: one, unless keys repeat. */
  function GpusNamed(gpus: seq<GpuInput>, key: string): seq<GpuInput> {
    if gpus == [] then []
    else
      var n := |gpus| - 1;
      GpusNamed(gpus[..n], key) + if gpus[n].key == key then [gpus[n]] else []
  }

  function DisksNamed(disks: seq<(string, Option<Float>)>, mount: string): seq<Option<Float>> {
    if disks == [] then []
    else
      var n := |disks| - 1;
      DisksNamed(disks[..n], mount) + if disks[n].0 == mount then [disks[n].1] else []
  }

  lemma {:induction false} NoGpuNamed(gpus: seq<GpuInput>, key: string)
    requires forall g | g in gpus :: g.key != key
    ensures GpusNamed(gpus, key) == []
  {
    if gpus != [] {
      NoGpuNamed(gpus[..|gpus| - 1], key);
    }
  }

  lemma {:induction false} OneGpuNamed(gpus: seq<GpuInput>, i: nat)
    requires i < |gpus| && forall j | 0 <= j < |gpus| && j != i :: gpus[j].key != gpus[i].key
    ensures GpusNamed(gpus, gpus[i].key) == [gpus[i]]
  {
    var n := |gpus| - 1;
    if i < n {
      OneGpuNamed(gpus[..n], i);
    } else {
      NoGpuNamed(gpus[..n], gpus[i].key);
    }
  }

  lemma {:induction false} NoDiskNamed(disks: seq<(string, Option<Float>)>, mount: string)
    requires forall d | d in disks :: d.0 != mount
    ensures DisksNamed(disks, mount) == []
  {
    if disks != [] {
      NoDiskNamed(disks[..|disks| - 1], mount);
    }
  }

  lemma {:induction false} OneDiskNamed(disks: seq<(string, Option<Float>)>, i: nat)
    requires i < |disks| && forall j | 0 <= j < |disks| && j != i :: disks[j].0 != disks[i].0
    ensures DisksNamed(disks, disks[i].0) == [disks[i].1]
  {
    var n := |disks| - 1;
    if i < n {
      OneDiskNamed(disks[..n], i);
    } else {
      NoDiskNamed(disks[..n], disks[i].0);
    }
  }

  // --- What it means to apply a rule to a reading ---

  /** The check is the rule applied to the value it carries. */
  predicate IsRuleCheck(check: Check, rule: ThresholdRule) {
    && check.threshold == rule.threshold && check.sustainSecs == rule.sustainSecs
    && check.breach == (if check.value.None? then None else Some(Breaches(rule, check.value.value)))
    && check.clear == if check.value.None? then None else Some(Clears(rule, check.value.value))
  }

  /** The operation judges `value` by a threshold rule: for finite limits, it breaches at or over
      the threshold and clears below the threshold less the hysteresis. */
  ghost predicate AppliesRule(op: KeyOp, rule: ThresholdRule, value: Option<Float>) {
    && op.Apply? && op.check.value == value && IsRuleCheck(op.check, rule)
    && op.shown == Some(rule.threshold)
    && (FiniteRule(rule) && value.Some? ==>
          && op.check.breach == Some(AtLeast(value.value, rule.threshold.r))
          && op.check.clear == Some(Under(value.value, rule.threshold.r - rule.hysteresis.r)))
  }

  /** The operation judges a GPU by the idle rule. */
  ghost predicate AppliesIdle(op: KeyOp, rule: IdleGpuRule, gpu: GpuInput) {
    && op.Apply? && op.check.value == gpu.vram && op.check.sustainSecs == rule.sustainSecs
    && op.shown == Some(rule.minVramPercent)
    && (gpu.util.None? || gpu.vram.None? ==> op.check.breach == None && op.check.clear == None)
    && (gpu.util.Some? && gpu.vram.Some? && rule.utilBelow.Fin? && rule.minVramPercent.Fin? ==>
          && op.check.breach == Some(Under(gpu.util.value, rule.utilBelow.r) && AtLeast(gpu.vram.value, rule.minVramPercent.r))
          && op.check.clear == Some(!op.check.breach.value))
  }

  ghost predicate GpuOp(op: KeyOp, s: AlertSettings, kind: AlertKind, gpu: GpuInput) {
    match kind
    case GpuTemp => AppliesRule(op, s.gpuTemp, gpu.temperature)
    case GpuVram => AppliesRule(op, s.gpuVram, gpu.vram)
    case GpuIdle => AppliesIdle(op, s.gpuIdle, gpu)
    case _ => false
  }

  predicate GpuRuleOn(s: AlertSettings, kind: AlertKind) {
    match kind
    case GpuTemp => s.gpuTemp.enabled
    case GpuVram => s.gpuVram.enabled
    case GpuIdle => s.gpuIdle.enabled
    case _ => false
  }

  ghost predicate GpuOps(ops: seq<KeyOp>, s: AlertSettings, kind: AlertKind, gpus: seq<GpuInput>) {
    if !GpuRuleOn(s, kind) then ops == []
    else |ops| == |gpus| && forall i | 0 <= i < |gpus| :: GpuOp(ops[i], s, kind, gpus[i])
  }

  ghost predicate RuleOps(ops: seq<KeyOp>, rule: ThresholdRule, values: seq<Option<Float>>) {
    if !rule.enabled then ops == []
    else |ops| == |values| && forall i | 0 <= i < |values| :: AppliesRule(ops[i], rule, values[i])
  }

  /** The operations of an evaluation on `key`: its subject's own readings, each judged once by
      the rule of its kind. */
  ghost predicate OwnReadings(ops: seq<KeyOp>, s: AlertSettings, input: AlertInput, key: AlertKey) {
    match key.kind
    case Memory => RuleOps(ops, s.memory, if key.subject == "" then [input.memory] else [])
    case Disk => RuleOps(ops, s.disk, DisksNamed(input.disks, key.subject))
    case LlmCritical => ops == []
    case kind => GpuOps(ops, s, kind, GpusNamed(input.gpus, key.subject))
  }

  // --- The checks of an evaluation, key by key ---

  lemma {:induction false} CheckOpsAppend(key: AlertKey, host: string, a: seq<Check>, b: seq<Check>, now: nat, cooldown: nat)
    ensures CheckOps(key, host, a + b, now, cooldown) == CheckOps(key, host, a, now, cooldown) + CheckOps(key, host, b, now, cooldown)
  {
    if b == [] {
      assert a + b == a;
    } else {
      var n := |b| - 1;
      CheckOpsAppend(key, host, a, b[..n], now, cooldown);
      assert (a + b)[..|a| + n] == a + b[..n] && (a + b)[|a| + n] == b[n];
    }
  }

  /** At most one check, of one kind and subject. */
  lemma CheckOpsOne(key: AlertKey, host: string, checks: seq<Check>, now: nat, cooldown: nat)
    requires |checks| <= 1
    ensures CheckOps(key, host, checks, now, cooldown) ==
      if |checks| == 1 && checks[0].kind == key.kind && checks[0].subject == key.subject
      then [Apply(host, checks[0], Some(checks[0].threshold), now, cooldown)] else []
  {
    if |checks| == 1 {
      assert checks[..0] == [];
      assert CheckOps(key, host, [], now, cooldown) == [];
    }
  }

  /** The operations that the check of one rule makes: for its own key one application, for
      others none. */
  lemma RuleMakesOps(key: AlertKey, host: string, kind: AlertKind, subject: string, rule: ThresholdRule, value: Option<Float>,
                     now: nat, cooldown: nat)
    ensures var ops := CheckOps(key, host, ThresholdCheck(kind, subject, rule, value), now, cooldown);
      RuleOps(ops, rule, if kind == key.kind && subject == key.subject then [value] else [])
  {
    var checks := ThresholdCheck(kind, subject, rule, value);
    CheckOpsOne(key, host, checks, now, cooldown);
    if FiniteRule(rule) {
      ThresholdCheckCompares(kind, subject, rule, value);
    }
  }

  lemma IdleMakesOps(key: AlertKey, host: string, s: AlertSettings, gpu: GpuInput, now: nat, cooldown: nat)
    ensures var ops := CheckOps(key, host, IdleCheck(gpu.key, s.gpuIdle, gpu.util, gpu.vram), now, cooldown);
      if key.kind == GpuIdle then GpuOps(ops, s, GpuIdle, if gpu.key == key.subject then [gpu] else []) else ops == []
  {
    CheckOpsOne(key, host, IdleCheck(gpu.key, s.gpuIdle, gpu.util, gpu.vram), now, cooldown);
    IdleCheckCompares(gpu.key, s.gpuIdle, gpu.util, gpu.vram);
    hide IdleCheck, CheckOps;
  }

  lemma OneGpuOps(key: AlertKey, host: string, s: AlertSettings, gpu: GpuInput, now: nat, cooldown: nat)
    requires key.kind in {GpuTemp, GpuVram, GpuIdle}
    ensures var checks := ThresholdCheck(GpuTemp, gpu.key, s.gpuTemp, gpu.temperature)
                        + ThresholdCheck(GpuVram, gpu.key, s.gpuVram, gpu.vram)
                        + IdleCheck(gpu.key, s.gpuIdle, gpu.util, gpu.vram);
      GpuOps(CheckOps(key, host, checks, now, cooldown), s, key.kind, if gpu.key == key.subject then [gpu] else [])
  {
    var a, b := ThresholdCheck(GpuTemp, gpu.key, s.gpuTemp, gpu.temperature), ThresholdCheck(GpuVram, gpu.key, s.gpuVram, gpu.vram);
    var c := IdleCheck(gpu.key, s.gpuIdle, gpu.util, gpu.vram);
    CheckOpsAppend(key, host, a + b, c, now, cooldown);
    CheckOpsAppend(key, host, a, b, now, cooldown);
    RuleMakesOps(key, host, GpuTemp, gpu.key, s.gpuTemp, gpu.temperature, now, cooldown);
    RuleMakesOps(key, host, GpuVram, gpu.key, s.gpuVram, gpu.vram, now, cooldown);
    IdleMakesOps(key, host, s, gpu, now, cooldown);
    hide CheckOps, ThresholdCheck, IdleCheck, AppliesRule, AppliesIdle;
  }

  lemma GpuOpsJoin(a: seq<KeyOp>, b: seq<KeyOp>, s: AlertSettings, kind: AlertKind, gs: seq<GpuInput>, hs: seq<GpuInput>)
    requires GpuOps(a, s, kind, gs) && GpuOps(b, s, kind, hs)
    ensures GpuOps(a + b, s, kind, gs + hs)
  {
    hide GpuOp, GpuRuleOn;
  }

  lemma {:induction false} AllGpuOps(key: AlertKey, host: string, s: AlertSettings, gpus: seq<GpuInput>, now: nat, cooldown: nat)
    requires key.kind in {GpuTemp, GpuVram, GpuIdle}
    ensures GpuOps(CheckOps(key, host, GpuChecks(s, gpus), now, cooldown), s, key.kind, GpusNamed(gpus, key.subject))
  {
    if gpus != [] {
      var n := |gpus| - 1;
      AllGpuOps(key, host, s, gpus[..n], now, cooldown);
      OneGpuOps(key, host, s, gpus[n], now, cooldown);
      var checks := ThresholdCheck(GpuTemp, gpus[n].key, s.gpuTemp, gpus[n].temperature)
                  + ThresholdCheck(GpuVram, gpus[n].key, s.gpuVram, gpus[n].vram)
                  + IdleCheck(gpus[n].key, s.gpuIdle, gpus[n].util, gpus[n].vram);
      assert GpuChecks(s, gpus) == GpuChecks(s, gpus[..n]) + checks;
      CheckOpsAppend(key, host, GpuChecks(s, gpus[..n]), checks, now, cooldown);
      hide CheckOps, ThresholdCheck, IdleCheck, GpuOps;
      GpuOpsJoin(CheckOps(key, host, GpuChecks(s, gpus[..n]), now, cooldown), CheckOps(key, host, checks, now, cooldown), s, key.kind,
                 GpusNamed(gpus[..n], key.subject), if gpus[n].key == key.subject then [gpus[n]] else []);
    }
  }

  lemma {:induction false} NoGpuOps(key: AlertKey, host: string, s: AlertSettings, gpus: seq<GpuInput>, now: nat, cooldown: nat)
    requires key.kind !in {GpuTemp, GpuVram, GpuIdle}
    ensures CheckOps(key, host, GpuChecks(s, gpus), now, cooldown) == []
  {
    GpuCheckKinds(s, gpus);
    OtherKinds(key, host, GpuChecks(s, gpus), now, cooldown);
  }

  lemma {:induction false} GpuCheckKinds(s: AlertSettings, gpus: seq<GpuInput>)
    ensures forall c | c in GpuChecks(s, gpus) :: c.kind in {GpuTemp, GpuVram, GpuIdle}
  {
    if gpus != [] {
      GpuCheckKinds(s, gpus[..|gpus| - 1]);
    }
  }

  lemma {:induction false} DiskCheckKinds(s: AlertSettings, disks: seq<(string, Option<Float>)>)
    ensures forall c | c in DiskChecks(s, disks) :: c.kind == Disk
  {
    if disks != [] {
      DiskCheckKinds(s, disks[..|disks| - 1]);
    }
  }

  lemma {:induction false} OtherKinds(key: AlertKey, host: string, checks: seq<Check>, now: nat, cooldown: nat)
    requires forall c | c in checks :: c.kind != key.kind
    ensures CheckOps(key, host, checks, now, cooldown) == []
  {
    if checks != [] {
      var n := |checks| - 1;
      assert checks[n] in checks;
      OtherKinds(key, host, checks[..n], now, cooldown);
    }
  }

  lemma {:induction false} AllDiskOps(key: AlertKey, host: string, s: AlertSettings, disks: seq<(string, Option<Float>)>, now: nat, cooldown: nat)
    requires key.kind == Disk
    ensures RuleOps(CheckOps(key, host, DiskChecks(s, disks), now, cooldown), s.disk, DisksNamed(disks, key.subject))
  {
    if disks != [] {
      var n := |disks| - 1;
      var checks := ThresholdCheck(Disk, disks[n].0, s.disk, disks[n].1);
      AllDiskOps(key, host, s, disks[..n], now, cooldown);
      RuleMakesOps(key, host, Disk, disks[n].0, s.disk, disks[n].1, now, cooldown);
      CheckOpsAppend(key, host, DiskChecks(s, disks[..n]), checks, now, cooldown);
      hide CheckOps, ThresholdCheck, AppliesRule;
    }
  }

  /** The operations of an evaluation on a key, from the input alone: none with alerts off or
      for another scope; else its subject's own readings, each judged once by the rule of the
      key's kind. */
  lemma EvaluationReads(s: AlertSettings, scope: string, host: string, input: AlertInput, now: nat, key: AlertKey)
    ensures var ops := OpsFor(s, CallEvaluate(scope, host, input, now), key);
      && (if s.enabled && scope == key.scope then OwnReadings(ops, s, input, key) else ops == [])
      && forall op | op in ops :: op.Apply? && op.host == host && op.now == now && op.cooldown == s.cooldownSecs
  {
    if s.enabled && scope == key.scope {
      OpsCarryCall(key, host, ChecksFor(s, input), now, s.cooldownSecs);
      ThreeParts(key, host, s, input, now);
    }
    hide CheckOps, ChecksFor, OwnReadings;
  }

  lemma ThreeParts(key: AlertKey, host: string, s: AlertSettings, input: AlertInput, now: nat)
    ensures OwnReadings(CheckOps(key, host, ChecksFor(s, input), now, s.cooldownSecs), s, input, key)
  {
    var gpus, disks := GpuChecks(s, input.gpus), DiskChecks(s, input.disks);
    var memory := ThresholdCheck(Memory, "", s.memory, input.memory);
    CheckOpsAppend(key, host, gpus + memory, disks, now, s.cooldownSecs);
    CheckOpsAppend(key, host, gpus, memory, now, s.cooldownSecs);
    assert ChecksFor(s, input) == gpus + memory + disks;
    MemoryMakesOps(key, host, s, input, now);
    GpusMakeOps(key, host, s, input, now);
    DisksMakeOps(key, host, s, input, now);
    hide CheckOps, ChecksFor, GpuChecks, DiskChecks, ThresholdCheck, GpuOps, RuleOps, GpusNamed, DisksNamed;
    var a, b, c := CheckOps(key, host, gpus, now, s.cooldownSecs), CheckOps(key, host, memory, now, s.cooldownSecs),
                   CheckOps(key, host, disks, now, s.cooldownSecs);
    assert [] + b + [] == b && [] + [] + c == c && a + [] + [] == a;
  }

  lemma MemoryMakesOps(key: AlertKey, host: string, s: AlertSettings, input: AlertInput, now: nat)
    ensures var ops := CheckOps(key, host, ThresholdCheck(Memory, "", s.memory, input.memory), now, s.cooldownSecs);
      if key.kind == Memory then RuleOps(ops, s.memory, if key.subject == "" then [input.memory] else []) else ops == []
  {
    RuleMakesOps(key, host, Memory, "", s.memory, input.memory, now, s.cooldownSecs);
    hide CheckOps, ThresholdCheck, AppliesRule;
  }

  lemma GpusMakeOps(key: AlertKey, host: string, s: AlertSettings, input: AlertInput, now: nat)
    ensures var ops := CheckOps(key, host, GpuChecks(s, input.gpus), now, s.cooldownSecs);
      if key.kind in {GpuTemp, GpuVram, GpuIdle} then GpuOps(ops, s, key.kind, GpusNamed(input.gpus, key.subject)) else ops == []
  {
    if key.kind in {GpuTemp, GpuVram, GpuIdle} {
      AllGpuOps(key, host, s, input.gpus, now, s.cooldownSecs);
    } else {
      NoGpuOps(key, host, s, input.gpus, now, s.cooldownSecs);
    }
  }

  lemma DisksMakeOps(key: AlertKey, host: string, s: AlertSettings, input: AlertInput, now: nat)
    ensures var ops := CheckOps(key, host, DiskChecks(s, input.disks), now, s.cooldownSecs);
      if key.kind == Disk then RuleOps(ops, s.disk, DisksNamed(input.disks, key.subject)) else ops == []
  {
    if key.kind == Disk {
      AllDiskOps(key, host, s, input.disks, now, s.cooldownSecs);
    } else {
      DiskCheckKinds(s, input.disks);
      OtherKinds(key, host, DiskChecks(s, input.disks), now, s.cooldownSecs);
    }
  }

  lemma {:induction false} OpsCarryCall(key: AlertKey, host: string, checks: seq<Check>, now: nat, cooldown: nat)
    ensures forall op | op in CheckOps(key, host, checks, now, cooldown) ::
      op.Apply? && op.host == host && op.now == now && op.cooldown == cooldown
  {
    if checks != [] {
      OpsCarryCall(key, host, checks[..|checks| - 1], now, cooldown);
    }
  }

  /** So where keys do not repeat, a GPU's rule is applied once, to that GPU. */
  lemma GpuIsReadOnce(s: AlertSettings, scope: string, host: string, input: AlertInput, now: nat, kind: AlertKind, i: nat)
    requires s.enabled && kind in {GpuTemp, GpuVram, GpuIdle} && i < |input.gpus|
    requires forall j | 0 <= j < |input.gpus| && j != i :: input.gpus[j].key != input.gpus[i].key
    ensures var ops := OpsFor(s, CallEvaluate(scope, host, input, now), AlertKey(scope, kind, input.gpus[i].key));
      if GpuRuleOn(s, kind) then |ops| == 1 && GpuOp(ops[0], s, kind, input.gpus[i]) else ops == []
  {
    EvaluationReads(s, scope, host, input, now, AlertKey(scope, kind, input.gpus[i].key));
    OneGpuNamed(input.gpus, i);
    hide OpsFor, GpuOp;
  }

  /** And a mount's rule once, to its percentage. */
  lemma DiskIsReadOnce(s: AlertSettings, scope: string, host: string, input: AlertInput, now: nat, i: nat)
    requires s.enabled && i < |input.disks|
    requires forall j | 0 <= j < |input.disks| && j != i :: input.disks[j].0 != input.disks[i].0
    ensures var ops := OpsFor(s, CallEvaluate(scope, host, input, now), AlertKey(scope, Disk, input.disks[i].0));
      if s.disk.enabled then |ops| == 1 && AppliesRule(ops[0], s.disk, input.disks[i].1) else ops == []
  {
    EvaluationReads(s, scope, host, input, now, AlertKey(scope, Disk, input.disks[i].0));
    OneDiskNamed(input.disks, i);
    hide OpsFor, AppliesRule;
  }

  /** What is not in the input is not judged. */
  lemma AbsentIsNotRead(s: AlertSettings, scope: string, host: string, input: AlertInput, now: nat, key: AlertKey)
    requires match key.kind
      case Memory => key.subject != ""
      case Disk => forall d | d in input.disks :: d.0 != key.subject
      case LlmCritical => true
      case _ => forall g | g in input.gpus :: g.key != key.subject
    ensures OpsFor(s, CallEvaluate(scope, host, input, now), key) == []
  {
    EvaluationReads(s, scope, host, input, now, key);
    if key.kind == Disk {
      NoDiskNamed(input.disks, key.subject);
    } else if key.kind in {GpuTemp, GpuVram, GpuIdle} {
      NoGpuNamed(input.gpus, key.subject);
    }
    hide OpsFor;
  }

  // --- Every event is about a reading of its own subject ---

  /** Something in the input, read under the rule of this kind, has the value and the limits
      that the event shows; it fired at a breach and resolved at a clear. */
  ghost predicate IsAboutInput(e: AlertEvent, s: AlertSettings, input: AlertInput) {
    match e.kind
    case GpuTemp => exists g :: g in input.gpus && g.key == e.subject && ShowsRule(e, s.gpuTemp, g.temperature)
    case GpuVram => exists g :: g in input.gpus && g.key == e.subject && ShowsRule(e, s.gpuVram, g.vram)
    case GpuIdle => exists g :: g in input.gpus && g.key == e.subject && ShowsIdle(e, s.gpuIdle, g)
    case Memory => e.subject == "" && ShowsRule(e, s.memory, input.memory)
    case Disk => exists d :: d in input.disks && d.0 == e.subject && ShowsRule(e, s.disk, d.1)
    case LlmCritical => false
  }

  ghost predicate ShowsRule(e: AlertEvent, rule: ThresholdRule, value: Option<Float>) {
    && rule.enabled && value.Some? && e.value == value && e.threshold == Some(rule.threshold)
    && (FiniteRule(rule) ==>
          if e.fired then AtLeast(value.value, rule.threshold.r)
          else Under(value.value, rule.threshold.r - rule.hysteresis.r))
  }

  ghost predicate ShowsIdle(e: AlertEvent, rule: IdleGpuRule, gpu: GpuInput) {
    && rule.enabled && gpu.util.Some? && gpu.vram.Some? && e.value == gpu.vram && e.threshold == Some(rule.minVramPercent)
    && (rule.utilBelow.Fin? && rule.minVramPercent.Fin? ==>
          (e.fired <==> Under(gpu.util.value, rule.utilBelow.r) && AtLeast(gpu.vram.value, rule.minVramPercent.r)))
  }

  /** An event of a key was made by one of its operations, with that operation's values. */
  ghost predicate MadeBy(e: AlertEvent, key: AlertKey, op: KeyOp) {
    && op.Apply? && EventKey(e) == key && e.hostLabel == op.host && e.at == op.now
    && e.value == op.check.value && e.threshold == op.shown
    && (if e.fired then op.check.breach == Some(true) else op.check.clear == Some(true) && !e.notify)
  }

  lemma {:induction false} EventsAreMade(key: AlertKey, ks: KeyState, ops: seq<KeyOp>, e: AlertEvent)
    requires e in KeyFrom(key, ks, ops).1
    ensures exists op :: op in ops && MadeBy(e, key, op)
  {
    var n := |ops| - 1;
    var (before, events) := KeyFrom(key, ks, ops[..n]);
    if e in events {
      EventsAreMade(key, ks, ops[..n], e);
    } else {
      assert KeyStep(key, before, ops[n]).1 == Some(e);
      assert MadeBy(e, key, ops[n]);
    }
  }

  lemma {:induction false} NamedAreThere(gpus: seq<GpuInput>, key: string)
    ensures forall g | g in GpusNamed(gpus, key) :: g in gpus && g.key == key
  {
    if gpus != [] {
      NamedAreThere(gpus[..|gpus| - 1], key);
    }
  }

  lemma {:induction false} NamedDisksAreThere(disks: seq<(string, Option<Float>)>, mount: string)
    ensures forall v | v in DisksNamed(disks, mount) :: (mount, v) in disks
  {
    if disks != [] {
      NamedDisksAreThere(disks[..|disks| - 1], mount);
    }
  }

  lemma OwnReadingIsInput(s: AlertSettings, input: AlertInput, key: AlertKey, ops: seq<KeyOp>, op: KeyOp, e: AlertEvent)
    requires OwnReadings(ops, s, input, key) && op in ops && MadeBy(e, key, op)
    ensures IsAboutInput(e, s, input)
  {
    var i :| 0 <= i < |ops| && ops[i] == op;
    if key.kind == Memory {
      assert AppliesRule(op, s.memory, input.memory);
    } else if key.kind == Disk {
      NamedDisksAreThere(input.disks, key.subject);
      var v := DisksNamed(input.disks, key.subject)[i];
      assert (key.subject, v) in input.disks && AppliesRule(op, s.disk, v);
    } else if key.kind != LlmCritical {
      NamedAreThere(input.gpus, key.subject);
      var g := GpusNamed(input.gpus, key.subject)[i];
      assert g in input.gpus && g.key == e.subject && GpuOp(op, s, key.kind, g);
    }
  }

  /** In any state, every event of an evaluation is of its scope, host and time, and about a
      reading in the input of its own subject; a resolution never notifies. */
  lemma EventsAreAboutInput(st: State, scope: string, host: string, input: AlertInput, now: nat, e: AlertEvent)
    requires e in Evaluate(st, scope, host, input, now).1
    ensures e.scope == scope && e.hostLabel == host && e.at == now && (e.notify ==> e.fired)
    ensures IsAboutInput(e, st.settings, input)
  {
    var key, call := EventKey(e), CallEvaluate(scope, host, input, now);
    var ops := OpsFor(st.settings, call, key);
    EventsOfContains(key, Do(st, call).1, e);
    CallProjects(st, call, key);
    EventsAreMade(key, View(st, key), ops, e);
    var op :| op in ops && MadeBy(e, key, op);
    EvaluationReads(st.settings, scope, host, input, now, key);
    hide OpsFor, OwnReadings, KeyFrom, Evaluate, IsAboutInput, MadeBy;
    OwnReadingIsInput(st.settings, input, key, ops, op, e);
    MadeFields(e, key, op);
  }

  lemma MadeFields(e: AlertEvent, key: AlertKey, op: KeyOp)
    requires MadeBy(e, key, op)
    ensures op.Apply? && e.hostLabel == op.host && e.at == op.now && e.scope == key.scope && (e.notify ==> e.fired)
  {
  }

  // --- The values a run reads ---

  function RuleFor(s: AlertSettings, kind: AlertKind): Option<ThresholdRule> {
    match kind
    case GpuTemp => Some(s.gpuTemp)
    case GpuVram => Some(s.gpuVram)
    case Memory => Some(s.memory)
    case Disk => Some(s.disk)
    case GpuIdle => None
    case LlmCritical => None
  }

  /** The readings in the input for a subject, by kind. */
  function Own(input: AlertInput, kind: AlertKind, subject: string): seq<Option<Float>> {
    match kind
    case GpuTemp => var own := GpusNamed(input.gpus, subject); seq(|own|, i requires 0 <= i < |own| => own[i].temperature)
    case GpuVram => var own := GpusNamed(input.gpus, subject); seq(|own|, i requires 0 <= i < |own| => own[i].vram)
    case Memory => if subject == "" then [input.memory] else []
    case Disk => DisksNamed(input.disks, subject)
    case GpuIdle => []
    case LlmCritical => []
  }

  function Timed(values: seq<Option<Float>>, now: nat): seq<(Option<Float>, nat)> {
    seq(|values|, i requires 0 <= i < |values| => (values[i], now))
  }

  /** The values that a call has a threshold rule judge for a key. */
  function ReadBy(s: AlertSettings, call: Call, key: AlertKey): seq<(Option<Float>, nat)> {
    if call.CallEvaluate? && s.enabled && call.scope == key.scope && RuleFor(s, key.kind).Some? && RuleFor(s, key.kind).value.enabled
    then Timed(Own(call.input, key.kind, key.subject), call.now)
    else []
  }

  /** The values of a run, with their times, since new settings or the end of the scope. */
  function RunReads(s0: AlertSettings, calls: seq<Call>, key: AlertKey): seq<(Option<Float>, nat)> {
    if calls == [] then []
    else
      var n := |calls| - 1;
      if calls[n].CallSettings? || (calls[n].CallForget? && calls[n].scope == key.scope) then []
      else RunReads(s0, calls[..n], key) + ReadBy(SettingsAfter(s0, calls[..n]), calls[n], key)
  }

  /** The values of the operations since the last reset. */
  function ValuesSince(ops: seq<KeyOp>, n: nat): seq<(Option<Float>, nat)>
    requires n <= |ops|
  {
    if n == 0 || !ops[n - 1].Apply? then []
    else ValuesSince(ops, n - 1) + [(ops[n - 1].check.value, ops[n - 1].now)]
  }

  lemma {:induction false} ValuesGrow(a: seq<KeyOp>, b: seq<KeyOp>, ops: seq<KeyOp>, values: seq<(Option<Float>, nat)>, k: nat)
    requires ops == a + b && k <= |b| == |values|
    requires forall i | 0 <= i < |b| :: b[i].Apply? && values[i] == (b[i].check.value, b[i].now)
    ensures ValuesSince(ops, |a| + k) == ValuesSince(a, |a|) + values[..k]
  {
    if k == 0 {
      ValuesPrefix(a, ops, |a|);
    } else {
      ValuesGrow(a, b, ops, values, k - 1);
      assert ops[|a| + k - 1] == b[k - 1] && values[..k] == values[..k - 1] + [values[k - 1]];
    }
  }

  lemma {:induction false} ValuesPrefix(a: seq<KeyOp>, ops: seq<KeyOp>, n: nat)
    requires n <= |a| <= |ops| && a == ops[..|a|]
    ensures ValuesSince(a, n) == ValuesSince(ops, n)
  {
    if n > 0 {
      assert a[n - 1] == ops[n - 1];
      ValuesPrefix(a, ops, n - 1);
    }
  }

  /** The operations of a call on a threshold key judge the values it reads, one by one. */
  lemma CallReads(s: AlertSettings, call: Call, key: AlertKey)
    requires key.kind in {GpuTemp, GpuVram, Memory, Disk} && !call.CallSettings? && !(call.CallForget? && call.scope == key.scope)
    ensures RuleFor(s, key.kind).Some?
    ensures var ops, values := OpsFor(s, call, key), ReadBy(s, call, key);
      |ops| == |values| && forall i | 0 <= i < |ops| ::
        ops[i].Apply? && values[i] == (ops[i].check.value, ops[i].now) && AppliesRule(ops[i], RuleFor(s, key.kind).value, values[i].0)
  {
    if call.CallEvaluate? {
      EvaluationReads(s, call.scope, call.host, call.input, call.now, key);
      hide OpsFor, AppliesRule;
      var ops := OpsFor(s, call, key);
      assert forall i | 0 <= i < |ops| :: ops[i] in ops;
      if s.enabled && call.scope == key.scope {
        OwnAreValues(ops, s, call.input, key);
      }
    }
  }

  lemma OwnAreValues(ops: seq<KeyOp>, s: AlertSettings, input: AlertInput, key: AlertKey)
    requires OwnReadings(ops, s, input, key) && RuleFor(s, key.kind).Some?
    ensures RuleOps(ops, RuleFor(s, key.kind).value, Own(input, key.kind, key.subject))
  {
    hide AppliesRule;
    if key.kind in {GpuTemp, GpuVram} {
      var own := GpusNamed(input.gpus, key.subject);
      assert GpuOps(ops, s, key.kind, own);
      if GpuRuleOn(s, key.kind) {
        assert forall i | 0 <= i < |own| :: GpuOp(ops[i], s, key.kind, own[i]);
      }
    }
  }

  /** Over every run the values judged for a threshold key since its last reset are the readings
      of its own subject in the calls of its scope, in order. */
  lemma {:induction false} RunReadsOwn(s0: AlertSettings, calls: seq<Call>, key: AlertKey)
    requires key.kind in {GpuTemp, GpuVram, Memory, Disk}
    ensures var ops := Ops(s0, calls, key); ValuesSince(ops, |ops|) == RunReads(s0, calls, key)
  {
    if calls != [] {
      var n := |calls| - 1;
      var s := SettingsAfter(s0, calls[..n]);
      var a, b, ops := Ops(s0, calls[..n], key), OpsFor(s, calls[n], key), Ops(s0, calls, key);
      assert ops == a + b;
      hide OpsFor, ReadBy, RuleFor, SettingsAfter, AppliesRule, Ops;
      RunReadsOwn(s0, calls[..n], key);
      hide ValuesSince;
      if calls[n].CallSettings? || (calls[n].CallForget? && calls[n].scope == key.scope) {
        ResetOp(s, calls[n], key);
        ResetEmpties(ops);
      } else {
        CallReads(s, calls[n], key);
        hide RunReads;
        ValuesGrow(a, b, ops, ReadBy(s, calls[n], key), |b|);
        assert ReadBy(s, calls[n], key)[..|b|] == ReadBy(s, calls[n], key);
        RunReadsMore(s0, calls, key);
      }
    }
  }

  lemma RunReadsMore(s0: AlertSettings, calls: seq<Call>, key: AlertKey)
    requires calls != []
    requires var call := calls[|calls| - 1]; !call.CallSettings? && !(call.CallForget? && call.scope == key.scope)
    ensures var n := |calls| - 1;
      RunReads(s0, calls, key) == RunReads(s0, calls[..n], key) + ReadBy(SettingsAfter(s0, calls[..n]), calls[n], key)
  {
    hide ReadBy, SettingsAfter;
  }

  lemma ResetEmpties(ops: seq<KeyOp>)
    requires ops != [] && !ops[|ops| - 1].Apply?
    ensures ValuesSince(ops, |ops|) == []
  {
  }

  lemma ResetOp(s: AlertSettings, call: Call, key: AlertKey)
    requires call.CallSettings? || (call.CallForget? && call.scope == key.scope)
    ensures |OpsFor(s, call, key)| == 1 && !OpsFor(s, call, key)[0].Apply?
  {
  }

  // --- Hysteresis, in any state of the engine ---

  predicate BelowClear(rule: ThresholdRule, value: Option<Float>)
    requires FiniteRule(rule)
  {
    value.Some? && Under(value.value, rule.threshold.r - rule.hysteresis.r)
  }

  lemma {:induction false} HoldsOn(key: AlertKey, ks: KeyState, ops: seq<KeyOp>, rule: ThresholdRule)
    requires ks.phase.Firing? && FiniteRule(rule)
    requires forall op | op in ops :: op.Apply? && AppliesRule(op, rule, op.check.value) && !BelowClear(rule, op.check.value)
    ensures KeyFrom(key, ks, ops) == (ks, [])
  {
    if ops != [] {
      var n := |ops| - 1;
      assert ops[n] in ops;
      HoldsOn(key, ks, ops[..n], rule);
      assert KeyStep(key, ks, ops[n]) == (ks, None) && [] + AsSeq<AlertEvent>(None) == [];
    }
  }

  /** An alert that is firing says nothing and stays as long as no reading of its subject is
      below the threshold less the hysteresis: not for values inside the band, for NaN, for
      missing ones. */
  lemma FiringHoldsInBand(st: State, call: Call, key: AlertKey)
    requires PhaseOf(st.phases, key).Firing? && call.CallEvaluate?
    requires key.kind in {GpuTemp, GpuVram, Memory, Disk} && FiniteRule(RuleFor(st.settings, key.kind).value)
    requires forall v | v in ReadBy(st.settings, call, key) :: !BelowClear(RuleFor(st.settings, key.kind).value, v.0)
    ensures View(Do(st, call).0, key) == View(st, key) && EventsOf(key, Do(st, call).1) == []
  {
    var s, ops := st.settings, OpsFor(st.settings, call, key);
    CallProjects(st, call, key);
    CallReads(s, call, key);
    hide OpsFor, Do, ReadBy, KeyFrom, AppliesRule, BelowClear;
    forall op | op in ops
      ensures op.Apply? && AppliesRule(op, RuleFor(s, key.kind).value, op.check.value)
      ensures !BelowClear(RuleFor(s, key.kind).value, op.check.value)
    {
      var i :| 0 <= i < |ops| && ops[i] == op;
      assert ReadBy(s, call, key)[i] in ReadBy(s, call, key);
    }
    HoldsOn(key, View(st, key), ops, RuleFor(s, key.kind).value);
  }

  /** And one reading below it resolves the alert, whatever the time. */
  lemma ClearResolves(st: State, call: Call, key: AlertKey)
    requires PhaseOf(st.phases, key).Firing? && call.CallEvaluate?
    requires key.kind in {GpuTemp, GpuVram, Memory, Disk} && FiniteRule(RuleFor(st.settings, key.kind).value)
    requires |ReadBy(st.settings, call, key)| == 1
    requires BelowClear(RuleFor(st.settings, key.kind).value, ReadBy(st.settings, call, key)[0].0)
    ensures PhaseOf(Do(st, call).0.phases, key).Normal? && key !in Do(st, call).0.active
    ensures var events := EventsOf(key, Do(st, call).1);
      |events| == 1 && !events[0].fired && events[0].value == ReadBy(st.settings, call, key)[0].0
  {
    var ops := OpsFor(st.settings, call, key);
    CallProjects(st, call, key);
    CallReads(st.settings, call, key);
    assert ops == [ops[0]];
    KeyFromOne(key, View(st, key), ops[0]);
    hide OpsFor, Do, ReadBy, KeyFrom;
  }

  // --- Instances ---

  predicate KnownHealthier(level: SeverityLevel) {
    level == Healthy || level == Warning || level == Congested
  }

  /** A change of level is judged once, for its own instance, if it goes into Critical from a
      known healthier level or out of Critical; it then fires or clears at once. */
  lemma LlmReads(s: AlertSettings, instance: string, name: string, from: Option<SeverityLevel>, to: SeverityLevel, now: nat, key: AlertKey)
    ensures var ops := OpsFor(s, CallLlm(instance, name, from, to, now), key);
      var into := from.Some? && KnownHealthier(from.value) && to == Critical;
      var outOf := from == Some(Critical) && to != Critical;
      if s.enabled && s.llmCritical && (into || outOf) && key == AlertKey("llm", LlmCritical, instance) then
        && |ops| == 1 && ops[0].Apply? && (ops[0].host, ops[0].now, ops[0].cooldown) == (name, now, s.cooldownSecs)
        && ops[0].shown == None && ops[0].check.value == None && ops[0].check.sustainSecs == 0
        && ops[0].check.breach == Some(into) && ops[0].check.clear == Some(outOf)
      else ops == []
  {
  }

  /** So an instance's event shows its name, the time, and neither value nor limit. */
  lemma LlmEventIs(st: State, instance: string, name: string, from: Option<SeverityLevel>, to: SeverityLevel, now: nat, e: AlertEvent)
    requires e in Do(st, CallLlm(instance, name, from, to, now)).1
    ensures EventKey(e) == AlertKey("llm", LlmCritical, instance) && e.hostLabel == name && e.at == now
    ensures e.value == None && e.threshold == None && (e.fired <==> to == Critical) && (e.notify ==> e.fired)
  {
    var key, call := EventKey(e), CallLlm(instance, name, from, to, now);
    EventsOfContains(key, Do(st, call).1, e);
    CallProjects(st, call, key);
    EventsAreMade(key, View(st, key), OpsFor(st.settings, call, key), e);
    LlmReads(st.settings, instance, name, from, to, now, key);
    hide OpsFor, Do, KeyFrom;
  }

  /** The changes of level of one instance: the first has no level before it. */
  function LlmCalls(instance: string, name: string, levels: seq<SeverityLevel>, times: seq<nat>, n: nat): seq<Call>
    requires n <= |levels| == |times|
  {
    if n == 0 then []
    else
      LlmCalls(instance, name, levels, times, n - 1)
      + [CallLlm(instance, name, if n == 1 then None else Some(levels[n - 2]), levels[n - 1], times[n - 1])]
  }

  /** The instance is critical, and became so, at change `k`, from a known healthier level. */
  ghost predicate TurnedCritical(levels: seq<SeverityLevel>, n: nat, k: nat)
    requires n <= |levels|
  {
    0 < k < n && KnownHealthier(levels[k - 1]) && forall j | k <= j < n :: levels[j] == Critical
  }

  lemma TurnedGrows(levels: seq<SeverityLevel>, n: nat, e: nat)
    requires e == n + 1 <= |levels|
    ensures (exists k: nat :: TurnedCritical(levels, e, k)) <==>
      levels[n] == Critical && ((n > 0 && KnownHealthier(levels[n - 1])) || exists k: nat :: TurnedCritical(levels, n, k))
  {
    if k: nat :| TurnedCritical(levels, e, k) {
      assert k < n ==> TurnedCritical(levels, n, k);
    }
    if levels[n] == Critical && n > 0 && KnownHealthier(levels[n - 1]) {
      assert TurnedCritical(levels, e, n);
    }
    if k: nat :| TurnedCritical(levels, n, k) && levels[n] == Critical {
      assert TurnedCritical(levels, e, k);
    }
  }

  /** After `n` changes the alert of the instance is firing, and active, exactly if the instance
      is critical and was seen to become so. */
  ghost predicate LevelsTell(st: State, s0: AlertSettings, key: AlertKey, levels: seq<SeverityLevel>, n: nat)
    requires n <= |levels|
  {
    && st.settings == s0 && !PhaseOf(st.phases, key).Pending?
    && (PhaseOf(st.phases, key).Firing? <==> exists k: nat :: TurnedCritical(levels, n, k))
    && (key in st.active <==> exists k: nat :: TurnedCritical(levels, n, k))
  }

  /** So it is over any changes of level: an instance that is critical from the start, or from an
      unknown level, never alerts. */
  lemma CriticalIsActive(
    s0: AlertSettings, instance: string, name: string, levels: seq<SeverityLevel>, times: seq<nat>, n: nat)
    requires s0.enabled && s0.llmCritical && n <= |levels| == |times|
    ensures LevelsTell(Run(s0, LlmCalls(instance, name, levels, times, n)).0, s0, AlertKey("llm", LlmCritical, instance), levels, n)
  {
    LevelsTold(s0, instance, name, levels, times, n, AlertKey("llm", LlmCritical, instance));
  }

  lemma {:induction false} LevelsTold(
    s0: AlertSettings, instance: string, name: string, levels: seq<SeverityLevel>, times: seq<nat>, n: nat, key: AlertKey)
    requires s0.enabled && s0.llmCritical && n <= |levels| == |times| && key == AlertKey("llm", LlmCritical, instance)
    ensures LevelsTell(Run(s0, LlmCalls(instance, name, levels, times, n)).0, s0, key, levels, n)
  {
    hide LevelsTell, Do, LlmCalls, Run;
    if n == 0 {
      NoCallsYet(instance, name, levels, times);
      NothingTold(s0, key, levels);
    } else {
      var calls := LlmCalls(instance, name, levels, times, n - 1);
      var call := LastCall(instance, name, levels, times, n);
      LevelsTold(s0, instance, name, levels, times, n - 1, key);
      RunOneMore(s0, calls, call);
      LevelStep(Run(s0, calls).0, s0, call, key, levels, n - 1, n);
    }
  }

  lemma NoCallsYet(instance: string, name: string, levels: seq<SeverityLevel>, times: seq<nat>)
    requires |levels| == |times|
    ensures LlmCalls(instance, name, levels, times, 0) == []
  {
  }

  lemma LastCall(instance: string, name: string, levels: seq<SeverityLevel>, times: seq<nat>, n: nat) returns (call: Call)
    requires 0 < n <= |levels| == |times|
    ensures LlmCalls(instance, name, levels, times, n) == LlmCalls(instance, name, levels, times, n - 1) + [call]
    ensures call.CallLlm? && call.instance == instance && call.to == levels[n - 1]
    ensures call.from == if n == 1 then None else Some(levels[n - 2])
  {
    call := CallLlm(instance, name, if n == 1 then None else Some(levels[n - 2]), levels[n - 1], times[n - 1]);
  }

  lemma NothingTold(s0: AlertSettings, key: AlertKey, levels: seq<SeverityLevel>)
    ensures LevelsTell(Run(s0, []).0, s0, key, levels, 0)
  {
  }

  lemma RunOneMore(s0: AlertSettings, calls: seq<Call>, call: Call)
    ensures Run(s0, calls + [call]).0 == Do(Run(s0, calls).0, call).0
  {
    assert (calls + [call])[..|calls|] == calls;
    hide Do;
  }

  lemma LevelStep(st: State, s0: AlertSettings, call: Call, key: AlertKey, levels: seq<SeverityLevel>, m: nat, n: nat)
    requires n == m + 1 <= |levels| && call.CallLlm? && key == AlertKey("llm", LlmCritical, call.instance)
    requires call.to == levels[m] && call.from == if m == 0 then None else Some(levels[m - 1])
    requires s0.enabled && s0.llmCritical && LevelsTell(st, s0, key, levels, m)
    ensures LevelsTell(Do(st, call).0, s0, key, levels, n)
  {
    hide Do, TurnedCritical, PhaseOf;
    LastLevel(levels, m);
    TurnedGrows(levels, m, n);
    LlmStep(st, call, key);
  }

  lemma LastLevel(levels: seq<SeverityLevel>, n: nat)
    requires n <= |levels|
    ensures (exists k: nat :: TurnedCritical(levels, n, k)) ==> n > 0 && levels[n - 1] == Critical
  {
  }

  lemma LlmStep(st: State, call: Call, key: AlertKey)
    requires call.CallLlm? && key == AlertKey("llm", LlmCritical, call.instance)
    requires st.settings.enabled && st.settings.llmCritical && !PhaseOf(st.phases, key).Pending?
    requires key in st.active <==> PhaseOf(st.phases, key).Firing?
    requires PhaseOf(st.phases, key).Firing? ==> call.from == Some(Critical)
    ensures var after := Do(st, call).0;
      && after.settings == st.settings && !PhaseOf(after.phases, key).Pending?
      && (key in after.active <==> PhaseOf(after.phases, key).Firing?)
      && (PhaseOf(after.phases, key).Firing? <==>
            call.to == Critical && ((call.from.Some? && KnownHealthier(call.from.value)) || PhaseOf(st.phases, key).Firing?))
  {
    var ops := OpsFor(st.settings, call, key);
    LlmReads(st.settings, call.instance, call.name, call.from, call.to, call.now, key);
    CallProjects(st, call, key);
    if |ops| == 1 {
      assert ops == [ops[0]];
      KeyFromOne(key, View(st, key), ops[0]);
    }
    hide Do, OpsFor;
  }
}
