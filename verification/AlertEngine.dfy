/** The engine as the source has it: four fields that the methods update in place. */
module AlertEngine {
  import opened Wrappers
  import opened AlertRules
  import S = AlertState
  import opened AlertState

  class AlertEngine {
    var settings: AlertSettings
    var phases: map<AlertKey, Phase>
    var lastNotified: map<AlertKey, nat>
    var active: map<AlertKey, AlertEvent>

    constructor (s0: AlertSettings)
      ensures View() == Initial(s0)
    {
      settings, phases, lastNotified, active := s0, map[], map[], map[];
    }

    function View(): State
      reads this
    {
      State(settings, phases, lastNotified, active)
    }

    method SetSettings(newSettings: AlertSettings)
      modifies this
      ensures View() == S.SetSettings(old(View()), newSettings)
    {
      settings := newSettings;
      phases := map[];
    }

    method Apply(scope: string, host: string, check: Check, now: nat, cooldown: nat)
      returns (event: Option<AlertEvent>)
      modifies this`phases, this`lastNotified
      ensures (View(), event) == ApplyCheck(old(View()), scope, host, check, now, cooldown)
    {
      var key := AlertKey(scope, check.kind, check.subject);
      var phase := if key in phases then phases[key] else Normal;
      var (next, transition) := Step(phase, check.breach, check.clear, check.sustainSecs, now);
      if next == Normal {
        phases := phases - {key};
      } else {
        phases := phases[key := next];
      }
      if transition.None? {
        return None;
      }
      var fired := transition.value == Fired;
      var notify := false;
      if fired {
        var due := key !in lastNotified || SaturatingSub(now, lastNotified[key]) >= cooldown;
        if due {
          lastNotified := lastNotified[key := now];
        }
        notify := due;
      }
      event := Some(AlertEvent(scope, host, check.kind, check.subject, fired, check.value,
                               Some(check.threshold), now, notify));
    }

    method EvaluateTelemetry(scope: string, host: string, input: AlertInput, now: nat)
      returns (events: seq<AlertEvent>)
      modifies this`phases, this`lastNotified, this`active
      ensures (View(), events) == Evaluate(old(View()), scope, host, input, now)
    {
      if !settings.enabled {
        return [];
      }
      var checks := BuildChecks(settings, input);
      events := ApplyChecks(scope, host, checks, now, settings.cooldownSecs);
      TrackEvents(events);
    }

    method ApplyChecks(scope: string, host: string, checks: seq<Check>, now: nat, cooldown: nat)
      returns (events: seq<AlertEvent>)
      modifies this`phases, this`lastNotified
      ensures (View(), events) == ApplyAll(old(View()), scope, host, checks, now, cooldown)
    {
      events := [];
      var i := 0;
      while i < |checks|
        invariant 0 <= i <= |checks|
        invariant (View(), events) == ApplyAll(old(View()), scope, host, checks[..i], now, cooldown)
      {
        ApplyNext(old(View()), scope, host, checks, i, now, cooldown);
        var event := Apply(scope, host, checks[i], now, cooldown);
        events := events + AsSeq(event);
        i := i + 1;
      }
      assert checks[..i] == checks;
    }

    static lemma ApplyNext(st: State, scope: string, host: string, checks: seq<Check>, i: nat, now: nat, cooldown: nat)
      requires i < |checks|
      ensures var (before, events) := ApplyAll(st, scope, host, checks[..i], now, cooldown);
        var (after, event) := ApplyCheck(before, scope, host, checks[i], now, cooldown);
        ApplyAll(st, scope, host, checks[..i + 1], now, cooldown) == (after, events + AsSeq(event))
    {
      assert checks[..i + 1][..i] == checks[..i];
    }

    static method BuildChecks(settings: AlertSettings, input: AlertInput) returns (checks: seq<Check>)
      ensures checks == ChecksFor(settings, input)
    {
      checks := [];
      var i := 0;
      while i < |input.gpus|
        invariant 0 <= i <= |input.gpus|
        invariant checks == GpuChecks(settings, input.gpus[..i])
      {
        var gpu := input.gpus[i];
        assert input.gpus[..i + 1][..i] == input.gpus[..i];
        checks := checks
          + (ThresholdCheck(GpuTemp, gpu.key, settings.gpuTemp, gpu.temperature)
             + ThresholdCheck(GpuVram, gpu.key, settings.gpuVram, gpu.vram)
             + IdleCheck(gpu.key, settings.gpuIdle, gpu.util, gpu.vram));
        i := i + 1;
      }
      assert input.gpus[..i] == input.gpus;
      checks := checks + ThresholdCheck(Memory, "", settings.memory, input.memory);
      var disks := [];
      i := 0;
      while i < |input.disks|
        invariant 0 <= i <= |input.disks|
        invariant disks == DiskChecks(settings, input.disks[..i])
      {
        var (mount, percent) := input.disks[i];
        assert input.disks[..i + 1][..i] == input.disks[..i];
        disks := disks + ThresholdCheck(Disk, mount, settings.disk, percent);
        i := i + 1;
      }
      assert input.disks[..i] == input.disks;
      checks := checks + disks;
    }

    method TrackEvents(events: seq<AlertEvent>)
      modifies this`active
      ensures active == Track(old(active), events)
    {
      var i := 0;
      while i < |events|
        invariant 0 <= i <= |events|
        invariant active == Track(old(active), events[..i])
      {
        var event := events[i];
        assert events[..i + 1][..i] == events[..i];
        var key := AlertKey(event.scope, event.kind, event.subject);
        if event.fired {
          active := active[key := event];
        } else {
          active := active - {key};
        }
        i := i + 1;
      }
      assert events[..i] == events;
    }

    method LlmTransition(
      instance: string, name: string, from: Option<SeverityLevel>, to: SeverityLevel, now: nat)
      returns (event: Option<AlertEvent>)
      modifies this`phases, this`lastNotified, this`active
      ensures (View(), event) == S.LlmTransition(old(View()), instance, name, from, to, now)
    {
      if !settings.enabled || !settings.llmCritical {
        return None;
      }
      var fired, resolved := LlmFired(from, to), LlmResolved(from, to);
      if !fired && !resolved {
        return None;
      }
      event := Apply("llm", name, LlmCheck(instance, fired, resolved), now, settings.cooldownSecs);
      if event.None? {
        return;
      }
      var shown := event.value.(threshold := None);
      TrackEvents([shown]);
      event := Some(shown);
    }

    method ForgetScope(scope: string)
      modifies this`phases, this`active
      ensures View() == S.ForgetScope(old(View()), scope)
    {
      phases := map k | k in phases && k.scope != scope :: phases[k];
      active := map k | k in active && k.scope != scope :: active[k];
    }
  }
}
