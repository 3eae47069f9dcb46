/** The alert engine's state as a value, and what each public method does to it
    (`src-tauri/src/alerts.rs:192-589`). The class in `AlertEngine.dfy` is proved to
    make exactly these moves. */
module AlertState {
  import opened Wrappers
  import opened Floats
  import opened AlertRules

  datatype AlertKey = AlertKey(scope: string, kind: AlertKind, subject: string)

  datatype AlertEvent = AlertEvent(
    scope: string,
    hostLabel: string,
    kind: AlertKind,
    subject: string,
    fired: bool,
    value: Option<Float>,
    threshold: Option<Float>,
    at: nat,
    notify: bool)

  datatype GpuInput = GpuInput(key: string, temperature: Option<Float>, util: Option<Float>, vram: Option<Float>)

  datatype AlertInput = AlertInput(gpus: seq<GpuInput>, memory: Option<Float>, disks: seq<(string, Option<Float>)>)

  datatype SeverityLevel = Unknown | Healthy | Warning | Congested | Critical

  datatype State = State(
    settings: AlertSettings,
    phases: map<AlertKey, Phase>,
    lastNotified: map<AlertKey, nat>,
    active: map<AlertKey, AlertEvent>)

  const LLM_SCOPE := "llm"

  function Initial(settings: AlertSettings): State {
    State(settings, map[], map[], map[])
  }

  function EventKey(event: AlertEvent): AlertKey {
    AlertKey(event.scope, event.kind, event.subject)
  }

  function KeyOf(scope: string, check: Check): AlertKey {
    AlertKey(scope, check.kind, check.subject)
  }

  function PhaseOf(phases: map<AlertKey, Phase>, key: AlertKey): Phase {
    if key in phases then phases[key] else Normal
  }

  function Due(lastNotified: map<AlertKey, nat>, key: AlertKey, now: nat, cooldown: nat): bool {
    key !in lastNotified || SaturatingSub(now, lastNotified[key]) >= cooldown
  }

  function AsSeq<T>(o: Option<T>): seq<T> {
    if o.Some? then [o.value] else []
  }

  /** One rule on one subject: its phase moves, and a fire may notify. */
  function ApplyCheck(st: State, scope: string, host: string, check: Check, now: nat, cooldown: nat)
    : (State, Option<AlertEvent>)
  {
    var key := KeyOf(scope, check);
    var (next, transition) := Step(PhaseOf(st.phases, key), check.breach, check.clear, check.sustainSecs, now);
    var phases := if next == Normal then st.phases - {key} else st.phases[key := next];
    if transition.None? then (st.(phases := phases), None)
    else
      var fired := transition.value == Fired;
      var notify := fired && Due(st.lastNotified, key, now, cooldown);
      (st.(phases := phases, lastNotified := if notify then st.lastNotified[key := now] else st.lastNotified),
       Some(AlertEvent(scope, host, check.kind, check.subject, fired, check.value, Some(check.threshold), now, notify)))
  }

  function ApplyAll(st: State, scope: string, host: string, checks: seq<Check>, now: nat, cooldown: nat)
    : (State, seq<AlertEvent>)
  {
    if checks == [] then (st, [])
    else
      var n := |checks| - 1;
      var (before, events) := ApplyAll(st, scope, host, checks[..n], now, cooldown);
      var (after, event) := ApplyCheck(before, scope, host, checks[n], now, cooldown);
      (after, events + AsSeq(event))
  }

  function TrackOne(active: map<AlertKey, AlertEvent>, event: AlertEvent): map<AlertKey, AlertEvent> {
    if event.fired then active[EventKey(event) := event] else active - {EventKey(event)}
  }

  function Track(active: map<AlertKey, AlertEvent>, events: seq<AlertEvent>): map<AlertKey, AlertEvent> {
    if events == [] then active
    else TrackOne(Track(active, events[..|events| - 1]), events[|events| - 1])
  }

  function GpuChecks(s: AlertSettings, gpus: seq<GpuInput>): seq<Check> {
    if gpus == [] then []
    else
      var gpu := gpus[|gpus| - 1];
      GpuChecks(s, gpus[..|gpus| - 1])
      + (ThresholdCheck(GpuTemp, gpu.key, s.gpuTemp, gpu.temperature)
         + ThresholdCheck(GpuVram, gpu.key, s.gpuVram, gpu.vram)
         + IdleCheck(gpu.key, s.gpuIdle, gpu.util, gpu.vram))
  }

  function DiskChecks(s: AlertSettings, disks: seq<(string, Option<Float>)>): seq<Check> {
    if disks == [] then []
    else
      var disk := disks[|disks| - 1];
      DiskChecks(s, disks[..|disks| - 1]) + ThresholdCheck(Disk, disk.0, s.disk, disk.1)
  }

  function ChecksFor(s: AlertSettings, input: AlertInput): seq<Check> {
    GpuChecks(s, input.gpus) + ThresholdCheck(Memory, "", s.memory, input.memory) + DiskChecks(s, input.disks)
  }

  function Evaluate(st: State, scope: string, host: string, input: AlertInput, now: nat): (State, seq<AlertEvent>) {
    if !st.settings.enabled then (st, [])
    else
      var (after, events) := ApplyAll(st, scope, host, ChecksFor(st.settings, input), now, st.settings.cooldownSecs);
      (after.(active := Track(after.active, events)), events)
  }

  predicate LlmFired(from: Option<SeverityLevel>, to: SeverityLevel) {
    from.Some? && from.value in {Healthy, Warning, Congested} && to == Critical
  }

  predicate LlmResolved(from: Option<SeverityLevel>, to: SeverityLevel) {
    from == Some(Critical) && to != Critical
  }

  function LlmCheck(instance: string, fired: bool, resolved: bool): Check {
    Check(LlmCritical, instance, None, Fin(0.0), Some(fired), Some(resolved), 0)
  }

  function LlmTransition(
    st: State, instance: string, name: string, from: Option<SeverityLevel>, to: SeverityLevel, now: nat)
    : (State, Option<AlertEvent>)
  {
    var fired, resolved := LlmFired(from, to), LlmResolved(from, to);
    if !st.settings.enabled || !st.settings.llmCritical || (!fired && !resolved) then (st, None)
    else
      var (after, event) :=
        ApplyCheck(st, LLM_SCOPE, name, LlmCheck(instance, fired, resolved), now, st.settings.cooldownSecs);
      if event.None? then (after, None)
      else
        var shown := event.value.(threshold := None);
        (after.(active := Track(after.active, [shown])), Some(shown))
  }

  function ForgetScope(st: State, scope: string): State {
    st.(phases := map k | k in st.phases && k.scope != scope :: st.phases[k],
        active := map k | k in st.active && k.scope != scope :: st.active[k])
  }

  function SetSettings(st: State, settings: AlertSettings): State {
    st.(settings := settings, phases := map[])
  }

  // --- Runs ---

  datatype Call =
    | CallEvaluate(scope: string, host: string, input: AlertInput, now: nat)
    | CallLlm(instance: string, name: string, from: Option<SeverityLevel>, to: SeverityLevel, now: nat)
    | CallForget(scope: string)
    | CallSettings(settings: AlertSettings)

  function Do(st: State, call: Call): (State, seq<AlertEvent>) {
    match call
    case CallEvaluate(scope, host, input, now) => Evaluate(st, scope, host, input, now)
    case CallLlm(instance, name, from, to, now) =>
      var (after, event) := LlmTransition(st, instance, name, from, to, now);
      (after, AsSeq(event))
    case CallForget(scope) => (ForgetScope(st, scope), [])
    case CallSettings(settings) => (SetSettings(st, settings), [])
  }

  /** The state and all the events after a run of calls on a new engine. */
  function Run(s0: AlertSettings, calls: seq<Call>): (State, seq<AlertEvent>) {
    if calls == [] then (Initial(s0), [])
    else
      var (before, events) := Run(s0, calls[..|calls| - 1]);
      var (after, more) := Do(before, calls[|calls| - 1]);
      (after, events + more)
  }
}
