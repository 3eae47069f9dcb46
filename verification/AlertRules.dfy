/** The pure part of the alert engine: settings and their sanitising, one rule
    application and one step of a rule's phase (`src-tauri/src/alerts.rs`). */
module AlertRules {
  import opened Wrappers
  import opened Floats

  datatype ThresholdRule = ThresholdRule(enabled: bool, threshold: Float, hysteresis: Float, sustainSecs: nat)

  datatype IdleGpuRule = IdleGpuRule(enabled: bool, utilBelow: Float, minVramPercent: Float, sustainSecs: nat)

  datatype AlertSettings = AlertSettings(
    enabled: bool,
    osNotifications: bool,
    notifyWhenFocused: bool,
    cooldownSecs: nat,
    gpuTemp: ThresholdRule,
    gpuVram: ThresholdRule,
    gpuIdle: IdleGpuRule,
    memory: ThresholdRule,
    disk: ThresholdRule,
    llmCritical: bool)

  const DEFAULT_SETTINGS := AlertSettings(
    true, true, false, 600,
    ThresholdRule(true, Fin(85.0), Fin(5.0), 30),
    ThresholdRule(true, Fin(95.0), Fin(5.0), 30),
    IdleGpuRule(false, Fin(5.0), Fin(10.0), 900),
    ThresholdRule(true, Fin(90.0), Fin(5.0), 60),
    ThresholdRule(true, Fin(90.0), Fin(2.0), 0),
    true)

  function ClampFinite(value: Float, min: real, max: real, fallback: real): real
    requires min <= max
  {
    if value.IsFinite() then MinReal(MaxReal(value.r, min), max) else fallback
  }

  function ClampNat(n: nat, min: nat, max: nat): nat
    requires min <= max
  {
    if n < min then min else if n > max then max else n
  }

  function SanitizeRule(rule: ThresholdRule, min: real, max: real): ThresholdRule
    requires min <= max
  {
    var threshold := ClampFinite(rule.threshold, min, max, max);
    ThresholdRule(
      rule.enabled,
      Fin(threshold),
      Fin(ClampFinite(rule.hysteresis, 0.0, MinReal(20.0, threshold - min), 0.0)),
      ClampNat(rule.sustainSecs, 0, 3600))
  }

  function Sanitize(s: AlertSettings): AlertSettings {
    s.(cooldownSecs := ClampNat(s.cooldownSecs, 60, 86400),
       gpuTemp := SanitizeRule(s.gpuTemp, 30.0, 120.0),
       gpuVram := SanitizeRule(s.gpuVram, 1.0, 100.0),
       gpuIdle := IdleGpuRule(
         s.gpuIdle.enabled,
         Fin(ClampFinite(s.gpuIdle.utilBelow, 0.0, 100.0, 5.0)),
         Fin(ClampFinite(s.gpuIdle.minVramPercent, 0.0, 100.0, 10.0)),
         ClampNat(s.gpuIdle.sustainSecs, 60, 86400)),
       memory := SanitizeRule(s.memory, 1.0, 100.0),
       disk := SanitizeRule(s.disk, 1.0, 100.0))
  }

  datatype Phase = Normal | Pending(since: nat) | Firing

  datatype Transition = Fired | Resolved

  /** Subtraction on unsigned integers that stops at zero. */
  function SaturatingSub(a: nat, b: nat): nat {
    if a < b then 0 else a - b
  }

  /** Advances one rule; an absent reading leaves the phase as it is. */
  function Step(phase: Phase, breach: Option<bool>, clear: Option<bool>, sustainSecs: nat, now: nat)
    : (Phase, Option<Transition>)
  {
    if phase.Firing? then
      if clear == Some(true) then (Normal, Some(Resolved)) else (Firing, None)
    else if breach.None? then (phase, None)
    else if !breach.value then (Normal, None)
    else
      var since := if phase.Pending? then phase.since else now;
      if SaturatingSub(now, since) >= sustainSecs then (Firing, Some(Fired)) else (Pending(since), None)
  }

  datatype AlertKind = GpuTemp | GpuVram | GpuIdle | Memory | Disk | LlmCritical

  /** What a reading asks of one rule: its key, its value and its limits. */
  datatype Check = Check(
    kind: AlertKind,
    subject: string,
    value: Option<Float>,
    threshold: Float,
    breach: Option<bool>,
    clear: Option<bool>,
    sustainSecs: nat)

  predicate Breaches(rule: ThresholdRule, value: Float) {
    value.Ge(rule.threshold)
  }

  predicate Clears(rule: ThresholdRule, value: Float) {
    value.Lt(rule.threshold.Minus(rule.hysteresis))
  }

  function ThresholdCheck(kind: AlertKind, subject: string, rule: ThresholdRule, value: Option<Float>): seq<Check> {
    if !rule.enabled then []
    else
      [Check(kind, subject, value, rule.threshold,
             if value.None? then None else Some(Breaches(rule, value.value)),
             if value.None? then None else Some(Clears(rule, value.value)),
             rule.sustainSecs)]
  }

  predicate IdleNow(rule: IdleGpuRule, util: Float, vram: Float) {
    util.Lt(rule.utilBelow) && vram.Ge(rule.minVramPercent)
  }

  function IdleCheck(subject: string, rule: IdleGpuRule, util: Option<Float>, vram: Option<Float>): seq<Check> {
    if !rule.enabled then []
    else
      var idle := if util.Some? && vram.Some? then Some(IdleNow(rule, util.value, vram.value)) else None;
      [Check(GpuIdle, subject, vram, rule.minVramPercent,
             idle, if idle.None? then None else Some(!idle.value), rule.sustainSecs)]
  }

  // --- What a rule compares, in plain arithmetic ---

  /** `value` is at or over the level `t`. NaN is not, infinity is. */
  predicate AtLeast(value: Float, t: real) {
    value == PosInf || (value.Fin? && value.r >= t)
  }

  /** `value` is under the level `t`. NaN is not, minus infinity is. */
  predicate Under(value: Float, t: real) {
    value == NegInf || (value.Fin? && value.r < t)
  }

  predicate FiniteRule(rule: ThresholdRule) {
    rule.threshold.Fin? && rule.hysteresis.Fin?
  }

  /** A threshold rule breaches from its threshold up and clears only below the threshold less
      the hysteresis, on every value there is. */
  lemma BandIs(rule: ThresholdRule, value: Float)
    requires FiniteRule(rule)
    ensures Breaches(rule, value) <==> AtLeast(value, rule.threshold.r)
    ensures Clears(rule, value) <==> Under(value, rule.threshold.r - rule.hysteresis.r)
  {
  }

  /** A disabled rule checks nothing; an enabled one makes one check, about its subject, of the
      value it is given against its own limits, and a missing value decides nothing. */
  lemma ThresholdCheckCompares(kind: AlertKind, subject: string, rule: ThresholdRule, value: Option<Float>)
    requires FiniteRule(rule)
    ensures var checks := ThresholdCheck(kind, subject, rule, value);
      if !rule.enabled then checks == []
      else
        && |checks| == 1 && checks[0].kind == kind && checks[0].subject == subject && checks[0].value == value
        && checks[0].threshold == rule.threshold && checks[0].sustainSecs == rule.sustainSecs
        && checks[0].breach == (if value.None? then None else Some(AtLeast(value.value, rule.threshold.r)))
        && checks[0].clear == if value.None? then None else Some(Under(value.value, rule.threshold.r - rule.hysteresis.r))
  {
    if value.Some? {
      BandIs(rule, value.value);
    }
  }

  /** The idle rule breaches when the GPU is used less than `utilBelow` and holds at least
      `minVramPercent` of its memory, and clears otherwise; it needs both values. */
  lemma IdleCheckCompares(subject: string, rule: IdleGpuRule, util: Option<Float>, vram: Option<Float>)
    ensures var checks := IdleCheck(subject, rule, util, vram);
      if !rule.enabled then checks == []
      else
        && |checks| == 1 && checks[0].kind == GpuIdle && checks[0].subject == subject && checks[0].value == vram
        && checks[0].threshold == rule.minVramPercent && checks[0].sustainSecs == rule.sustainSecs
        && (if util.None? || vram.None? then checks[0].breach == None && checks[0].clear == None
            else
              && checks[0].breach.Some? && checks[0].clear == Some(!checks[0].breach.value)
              && (rule.utilBelow.Fin? && rule.minVramPercent.Fin? ==>
                    (checks[0].breach.value <==> Under(util.value, rule.utilBelow.r) && AtLeast(vram.value, rule.minVramPercent.r))))
  {
  }

  // --- What sanitising guarantees ---

  predicate RuleInRange(rule: ThresholdRule, min: real, max: real) {
    && rule.threshold.Fin? && rule.hysteresis.Fin?
    && min <= rule.threshold.r <= max
    && 0.0 <= rule.hysteresis.r <= 20.0
    && min <= rule.threshold.r - rule.hysteresis.r
    && rule.sustainSecs <= 3600
  }

  predicate PercentInRange(value: Float) {
    value.Fin? && 0.0 <= value.r <= 100.0
  }

  predicate InRange(s: AlertSettings) {
    && 60 <= s.cooldownSecs <= 86400
    && RuleInRange(s.gpuTemp, 30.0, 120.0)
    && RuleInRange(s.gpuVram, 1.0, 100.0)
    && RuleInRange(s.memory, 1.0, 100.0)
    && RuleInRange(s.disk, 1.0, 100.0)
    && PercentInRange(s.gpuIdle.utilBelow)
    && PercentInRange(s.gpuIdle.minVramPercent)
    && 60 <= s.gpuIdle.sustainSecs <= 86400
  }

  lemma SanitizeRuleRange(rule: ThresholdRule, min: real, max: real)
    requires min <= max
    ensures RuleInRange(SanitizeRule(rule, min, max), min, max)
    ensures SanitizeRule(rule, min, max) == rule <==> RuleInRange(rule, min, max)
  {
    var r := SanitizeRule(rule, min, max);
    assert r.threshold.r - r.hysteresis.r >= min;
  }

  /** Sanitising always lands in range, and changes exactly the settings that were
      out of range; so a second pass changes nothing. */
  lemma SanitizeRange(s: AlertSettings)
    ensures InRange(Sanitize(s))
    ensures Sanitize(s) == s <==> InRange(s)
    ensures Sanitize(Sanitize(s)) == Sanitize(s)
  {
    SanitizeRules(s);
    SanitizeRules(Sanitize(s));
  }

  lemma SanitizeRules(s: AlertSettings)
    ensures InRange(Sanitize(s))
    ensures Sanitize(s) == s <==> InRange(s)
  {
    SanitizeRuleRange(s.gpuTemp, 30.0, 120.0);
    SanitizeRuleRange(s.gpuVram, 1.0, 100.0);
    SanitizeRuleRange(s.memory, 1.0, 100.0);
    SanitizeRuleRange(s.disk, 1.0, 100.0);
  }

  // --- What sanitising does to what it changes ---

  function Distance(a: real, b: real): real {
    if a < b then b - a else a - b
  }

  /** `r` is the value of `[min, max]` nearest to `value`, or `fallback` if there is none. */
  ghost predicate Nearest(r: real, value: Float, min: real, max: real, fallback: real) {
    if value.Fin? then min <= r <= max && forall w: real | min <= w <= max :: Distance(r, value.r) <= Distance(w, value.r)
    else r == fallback
  }

  ghost predicate NearestNat(r: nat, n: nat, min: nat, max: nat) {
    min <= r <= max && (n <= max ==> n <= r) && (min <= n ==> r <= n)
  }

  /** The threshold goes to the nearest in range, and the hysteresis to the nearest that leaves
      the clear level in range; what is no number becomes the highest threshold and no
      hysteresis. */
  ghost predicate RuleNearest(to: ThresholdRule, from: ThresholdRule, min: real, max: real) {
    && to.enabled == from.enabled && FiniteRule(to)
    && Nearest(to.threshold.r, from.threshold, min, max, max)
    && Nearest(to.hysteresis.r, from.hysteresis, 0.0, MinReal(20.0, to.threshold.r - min), 0.0)
    && NearestNat(to.sustainSecs, from.sustainSecs, 0, 3600)
  }

  lemma RuleIsNearest(rule: ThresholdRule, min: real, max: real)
    requires min <= max
    ensures RuleNearest(SanitizeRule(rule, min, max), rule, min, max)
  {
  }

  /** Sanitising moves each number to the nearest in its range and leaves every switch as it
      is. */
  lemma SanitizeIsNearest(s: AlertSettings)
    ensures var r := Sanitize(s);
      && (r.enabled, r.osNotifications, r.notifyWhenFocused, r.llmCritical) == (s.enabled, s.osNotifications, s.notifyWhenFocused, s.llmCritical)
      && NearestNat(r.cooldownSecs, s.cooldownSecs, 60, 86400)
      && RuleNearest(r.gpuTemp, s.gpuTemp, 30.0, 120.0) && RuleNearest(r.gpuVram, s.gpuVram, 1.0, 100.0)
      && RuleNearest(r.memory, s.memory, 1.0, 100.0) && RuleNearest(r.disk, s.disk, 1.0, 100.0)
      && r.gpuIdle.enabled == s.gpuIdle.enabled && NearestNat(r.gpuIdle.sustainSecs, s.gpuIdle.sustainSecs, 60, 86400)
      && r.gpuIdle.utilBelow.Fin? && Nearest(r.gpuIdle.utilBelow.r, s.gpuIdle.utilBelow, 0.0, 100.0, 5.0)
      && r.gpuIdle.minVramPercent.Fin? && Nearest(r.gpuIdle.minVramPercent.r, s.gpuIdle.minVramPercent, 0.0, 100.0, 10.0)
  {
    RuleIsNearest(s.gpuTemp, 30.0, 120.0);
    RuleIsNearest(s.gpuVram, 1.0, 100.0);
    RuleIsNearest(s.memory, 1.0, 100.0);
    RuleIsNearest(s.disk, 1.0, 100.0);
    hide RuleNearest, SanitizeRule;
  }

  /** The settings the engine starts with are in range. */
  lemma DefaultsAreInRange()
    ensures InRange(DEFAULT_SETTINGS) && Sanitize(DEFAULT_SETTINGS) == DEFAULT_SETTINGS
  {
    SanitizeRules(DEFAULT_SETTINGS);
  }

  /** Some reading in `[0, max]` fires the rule, some reading there clears it, and no
      reading at all, NaN and the infinities included, does both. */
  ghost predicate Usable(rule: ThresholdRule, max: real) {
    && FiniteRule(rule)
    && (exists v: real :: 0.0 <= v <= max && AtLeast(Fin(v), rule.threshold.r))
    && (exists v: real :: 0.0 <= v <= max && Under(Fin(v), rule.threshold.r - rule.hysteresis.r))
    && (forall value: Float :: !(AtLeast(value, rule.threshold.r) && Under(value, rule.threshold.r - rule.hysteresis.r)))
    && (forall value: Float :: !(Breaches(rule, value) && Clears(rule, value)))
  }

  lemma RangeIsUsable(rule: ThresholdRule, min: real, max: real)
    requires 0.0 < min <= max
    requires RuleInRange(rule, min, max)
    ensures Usable(rule, max)
  {
    assert AtLeast(Fin(rule.threshold.r), rule.threshold.r);
    assert Under(Fin(0.0), rule.threshold.r - rule.hysteresis.r);
  }

  /** The source's promise for `sanitize`, for every threshold rule. */
  lemma SanitizedRulesAreUsable(settings: AlertSettings)
    ensures var s := Sanitize(settings);
      Usable(s.gpuTemp, 120.0) && Usable(s.gpuVram, 100.0) && Usable(s.memory, 100.0) && Usable(s.disk, 100.0)
  {
    var s := Sanitize(settings);
    SanitizeRange(settings);
    RangeIsUsable(s.gpuTemp, 30.0, 120.0);
    RangeIsUsable(s.gpuVram, 1.0, 100.0);
    RangeIsUsable(s.memory, 1.0, 100.0);
    RangeIsUsable(s.disk, 1.0, 100.0);
  }

  ghost predicate IdleCanFire(rule: IdleGpuRule) {
    exists util: real, vram: real ::
      0.0 <= util <= 100.0 && 0.0 <= vram <= 100.0 && IdleNow(rule, Fin(util), Fin(vram))
  }

  ghost predicate IdleCanClear(rule: IdleGpuRule) {
    exists util: real, vram: real ::
      0.0 <= util <= 100.0 && 0.0 <= vram <= 100.0 && !IdleNow(rule, Fin(util), Fin(vram))
  }

  /** The idle rule is the exception: sanitising leaves a zero `utilBelow` alone, and
      such a rule can never fire. It can fire exactly when `utilBelow` is positive. */
  lemma SanitizedIdleRule(settings: AlertSettings)
    ensures var rule := Sanitize(settings).gpuIdle;
      && IdleCanClear(rule)
      && (IdleCanFire(rule) <==> Fin(0.0).Lt(rule.utilBelow))
  {
    var rule := Sanitize(settings).gpuIdle;
    assert PercentInRange(rule.utilBelow) && PercentInRange(rule.minVramPercent);
    assert !IdleNow(rule, Fin(100.0), Fin(0.0));
    if Fin(0.0).Lt(rule.utilBelow) {
      assert IdleNow(rule, Fin(0.0), Fin(rule.minVramPercent.r));
    }
  }

  /** The concrete setting that survives sanitising and can never fire. */
  lemma ZeroUtilBelowNeverFires()
    ensures var s := DEFAULT_SETTINGS.(gpuIdle := IdleGpuRule(true, Fin(0.0), Fin(10.0), 900));
      Sanitize(s) == s && s.gpuIdle.enabled && !IdleCanFire(s.gpuIdle)
  {
    var s := DEFAULT_SETTINGS.(gpuIdle := IdleGpuRule(true, Fin(0.0), Fin(10.0), 900));
    assert InRange(s);
    SanitizeRules(s);
    SanitizedIdleRule(s);
  }
}
