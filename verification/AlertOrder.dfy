/** The order of the events of one evaluation: that of the input, GPU by GPU, then memory, then
    disk by disk (`src-tauri/src/alerts.rs:427-489`). */
module AlertOrder {
  import opened Wrappers
  import opened Floats
  import opened AlertRules
  import opened AlertState

  /** The place of a GPU in the input; past its end if it is not there. */
  function GpuPlace(gpus: seq<GpuInput>, key: string): nat {
    if gpus == [] || gpus[0].key == key then 0 else 1 + GpuPlace(gpus[1..], key)
  }

  function DiskPlace(disks: seq<(string, Option<Float>)>, mount: string): nat {
    if disks == [] || disks[0].0 == mount then 0 else 1 + DiskPlace(disks[1..], mount)
  }

  /** Where the subject of a rule stands in the input: three rules for each GPU, then memory,
      then the disks. */
  function Rank(input: AlertInput, kind: AlertKind, subject: string): nat {
    match kind
    case GpuTemp => 3 * GpuPlace(input.gpus, subject)
    case GpuVram => 3 * GpuPlace(input.gpus, subject) + 1
    case GpuIdle => 3 * GpuPlace(input.gpus, subject) + 2
    case Memory => 3 * |input.gpus|
    case Disk => 3 * |input.gpus| + 1 + DiskPlace(input.disks, subject)
    case LlmCritical => 0
  }

  predicate DistinctSubjects(input: AlertInput) {
    && (forall i, j | 0 <= i < j < |input.gpus| :: input.gpus[i].key != input.gpus[j].key)
    && (forall i, j | 0 <= i < j < |input.disks| :: input.disks[i].0 != input.disks[j].0)
  }

  lemma {:induction false} GpuPlaceIs(gpus: seq<GpuInput>, i: nat)
    requires i < |gpus| && forall j, k | 0 <= j < k < |gpus| :: gpus[j].key != gpus[k].key
    ensures GpuPlace(gpus, gpus[i].key) == i
  {
    if i > 0 {
      assert gpus[0].key != gpus[i].key && gpus[1..][i - 1] == gpus[i];
      GpuPlaceIs(gpus[1..], i - 1);
    }
  }

  lemma {:induction false} DiskPlaceIs(disks: seq<(string, Option<Float>)>, i: nat)
    requires i < |disks| && forall j, k | 0 <= j < k < |disks| :: disks[j].0 != disks[k].0
    ensures DiskPlace(disks, disks[i].0) == i
  {
    if i > 0 {
      assert disks[0].0 != disks[i].0 && disks[1..][i - 1] == disks[i];
      DiskPlaceIs(disks[1..], i - 1);
    }
  }

  // --- The checks ascend ---

  /** The checks come in strictly ascending rank, from `lo` up to but not including `hi`. */
  ghost predicate Ascending(input: AlertInput, checks: seq<Check>, lo: nat, hi: nat) {
    && (forall i | 0 <= i < |checks| :: lo <= Rank(input, checks[i].kind, checks[i].subject) < hi)
    && (forall i, j | 0 <= i < j < |checks| ::
          Rank(input, checks[i].kind, checks[i].subject) < Rank(input, checks[j].kind, checks[j].subject))
  }

  lemma AscendingJoin(input: AlertInput, a: seq<Check>, b: seq<Check>, lo: nat, mid: nat, hi: nat)
    requires lo <= mid <= hi && Ascending(input, a, lo, mid) && Ascending(input, b, mid, hi)
    ensures Ascending(input, a + b, lo, hi)
  {
    hide Rank;
  }

  lemma ThreeJoin(input: AlertInput, a: seq<Check>, b: seq<Check>, c: seq<Check>, lo: nat, m: nat, n: nat, hi: nat)
    requires lo <= m <= n <= hi && Ascending(input, a, lo, m) && Ascending(input, b, m, n) && Ascending(input, c, n, hi)
    ensures Ascending(input, a + b + c, lo, hi)
  {
    hide Ascending;
    AscendingJoin(input, a, b, lo, m, n);
    AscendingJoin(input, a + b, c, lo, n, hi);
  }

  /** One rule's check, if it is enabled. */
  lemma RuleAscends(input: AlertInput, kind: AlertKind, subject: string, rule: ThresholdRule, value: Option<Float>, rank: nat)
    requires Rank(input, kind, subject) == rank
    ensures Ascending(input, ThresholdCheck(kind, subject, rule, value), rank, rank + 1)
  {
    OneAscends(input, ThresholdCheck(kind, subject, rule, value), rank);
    hide Ascending;
  }

  lemma IdleAscends(input: AlertInput, rule: IdleGpuRule, gpu: GpuInput, rank: nat)
    requires Rank(input, GpuIdle, gpu.key) == rank
    ensures Ascending(input, IdleCheck(gpu.key, rule, gpu.util, gpu.vram), rank, rank + 1)
  {
    OneAscends(input, IdleCheck(gpu.key, rule, gpu.util, gpu.vram), rank);
    hide Ascending;
  }

  lemma OneAscends(input: AlertInput, checks: seq<Check>, lo: nat)
    requires |checks| <= 1
    requires |checks| == 1 ==> Rank(input, checks[0].kind, checks[0].subject) == lo
    ensures Ascending(input, checks, lo, lo + 1)
  {
  }

  lemma GpuAscends(input: AlertInput, s: AlertSettings, i: nat)
    requires DistinctSubjects(input) && i < |input.gpus|
    ensures var gpu := input.gpus[i];
      Ascending(input, ThresholdCheck(GpuTemp, gpu.key, s.gpuTemp, gpu.temperature)
                       + ThresholdCheck(GpuVram, gpu.key, s.gpuVram, gpu.vram)
                       + IdleCheck(gpu.key, s.gpuIdle, gpu.util, gpu.vram), 3 * i, 3 * i + 3)
  {
    var gpu := input.gpus[i];
    GpuPlaceIs(input.gpus, i);
    RuleAscends(input, GpuTemp, gpu.key, s.gpuTemp, gpu.temperature, 3 * i);
    RuleAscends(input, GpuVram, gpu.key, s.gpuVram, gpu.vram, 3 * i + 1);
    IdleAscends(input, s.gpuIdle, gpu, 3 * i + 2);
    hide Ascending, ThresholdCheck, IdleCheck, Rank, GpuPlace, DistinctSubjects;
    ThreeJoin(input, ThresholdCheck(GpuTemp, gpu.key, s.gpuTemp, gpu.temperature),
              ThresholdCheck(GpuVram, gpu.key, s.gpuVram, gpu.vram), IdleCheck(gpu.key, s.gpuIdle, gpu.util, gpu.vram),
              3 * i, 3 * i + 1, 3 * i + 2, 3 * i + 3);
  }

  lemma {:induction false} GpusAscend(input: AlertInput, s: AlertSettings, n: nat)
    requires DistinctSubjects(input) && n <= |input.gpus|
    ensures Ascending(input, GpuChecks(s, input.gpus[..n]), 0, 3 * n)
  {
    if n > 0 {
      var gpu := input.gpus[n - 1];
      GpusAscend(input, s, n - 1);
      GpuAscends(input, s, n - 1);
      assert input.gpus[..n][..n - 1] == input.gpus[..n - 1];
      hide Ascending, ThresholdCheck, IdleCheck;
      AscendingJoin(input, GpuChecks(s, input.gpus[..n - 1]),
                    ThresholdCheck(GpuTemp, gpu.key, s.gpuTemp, gpu.temperature)
                    + ThresholdCheck(GpuVram, gpu.key, s.gpuVram, gpu.vram)
                    + IdleCheck(gpu.key, s.gpuIdle, gpu.util, gpu.vram), 0, 3 * (n - 1), 3 * n);
    }
  }

  lemma {:induction false} DisksAscend(input: AlertInput, s: AlertSettings, n: nat)
    requires DistinctSubjects(input) && n <= |input.disks|
    ensures var first := 3 * |input.gpus| + 1; Ascending(input, DiskChecks(s, input.disks[..n]), first, first + n)
  {
    if n > 0 {
      var first, disk := 3 * |input.gpus| + 1, input.disks[n - 1];
      var checks := ThresholdCheck(Disk, disk.0, s.disk, disk.1);
      DisksAscend(input, s, n - 1);
      DiskPlaceIs(input.disks, n - 1);
      OneAscends(input, checks, first + n - 1);
      assert input.disks[..n][..n - 1] == input.disks[..n - 1];
      hide Ascending, ThresholdCheck, Rank;
      AscendingJoin(input, DiskChecks(s, input.disks[..n - 1]), checks, first, first + n - 1, first + n);
    }
  }

  lemma ChecksAscend(input: AlertInput, s: AlertSettings)
    requires DistinctSubjects(input)
    ensures Ascending(input, ChecksFor(s, input), 0, 3 * |input.gpus| + 1 + |input.disks|)
  {
    var g, d := |input.gpus|, |input.disks|;
    GpusAscend(input, s, g);
    DisksAscend(input, s, d);
    RuleAscends(input, Memory, "", s.memory, input.memory, 3 * g);
    assert input.gpus[..g] == input.gpus && input.disks[..d] == input.disks;
    hide Ascending, ThresholdCheck, Rank, GpuChecks, DiskChecks, DistinctSubjects;
    ThreeJoin(input, GpuChecks(s, input.gpus), ThresholdCheck(Memory, "", s.memory, input.memory), DiskChecks(s, input.disks),
              0, 3 * g, 3 * g + 1, 3 * g + 1 + d);
  }

  // --- And so do the events ---

  /** Each event is of one of the first `n` checks, and the checks follow one another as the
      events do. */
  ghost predicate Follow(events: seq<AlertEvent>, checks: seq<Check>, places: seq<nat>, n: nat)
    requires n <= |checks|
  {
    && |places| == |events|
    && (forall i | 0 <= i < |events| ::
          places[i] < n && events[i].kind == checks[places[i]].kind && events[i].subject == checks[places[i]].subject)
    && (forall i, j | 0 <= i < j < |events| :: places[i] < places[j])
  }

  lemma {:induction false} EventsFollow(st: State, scope: string, host: string, checks: seq<Check>, now: nat, cooldown: nat, n: nat)
    returns (places: seq<nat>)
    requires n <= |checks|
    ensures Follow(ApplyAll(st, scope, host, checks[..n], now, cooldown).1, checks, places, n)
  {
    if n == 0 {
      places := [];
    } else {
      places := EventsFollow(st, scope, host, checks, now, cooldown, n - 1);
      var event := NextEvent(st, scope, host, checks, now, cooldown, n);
      hide ApplyAll;
      FollowOn(ApplyAll(st, scope, host, checks[..n - 1], now, cooldown).1, event, checks, places, n);
      places := places + if event.Some? then [n - 1] else [];
    }
  }

  lemma NextEvent(st: State, scope: string, host: string, checks: seq<Check>, now: nat, cooldown: nat, n: nat)
    returns (event: Option<AlertEvent>)
    requires 0 < n <= |checks|
    ensures ApplyAll(st, scope, host, checks[..n], now, cooldown).1
         == ApplyAll(st, scope, host, checks[..n - 1], now, cooldown).1 + AsSeq(event)
    ensures event.Some? ==> event.value.kind == checks[n - 1].kind && event.value.subject == checks[n - 1].subject
  {
    assert checks[..n][..n - 1] == checks[..n - 1];
    event := ApplyCheck(ApplyAll(st, scope, host, checks[..n - 1], now, cooldown).0, scope, host, checks[n - 1], now, cooldown).1;
  }

  lemma FollowOn(events: seq<AlertEvent>, event: Option<AlertEvent>, checks: seq<Check>, places: seq<nat>, n: nat)
    requires 0 < n <= |checks| && Follow(events, checks, places, n - 1)
    requires event.Some? ==> event.value.kind == checks[n - 1].kind && event.value.subject == checks[n - 1].subject
    ensures Follow(events + AsSeq(event), checks, places + (if event.Some? then [n - 1] else []), n)
  {
  }

  /** The events of an evaluation come in the order of the input: for each GPU temperature, then
      memory, then idleness; after them the host's memory; after it the disks. No rule of a
      subject sends two. */
  lemma EventsAscend(st: State, scope: string, host: string, input: AlertInput, now: nat)
    requires DistinctSubjects(input)
    ensures var events := Evaluate(st, scope, host, input, now).1;
      forall i, j | 0 <= i < j < |events| ::
        Rank(input, events[i].kind, events[i].subject) < Rank(input, events[j].kind, events[j].subject)
  {
    var checks := ChecksFor(st.settings, input);
    if st.settings.enabled {
      ChecksAscend(input, st.settings);
      var places := EventsFollow(st, scope, host, checks, now, st.settings.cooldownSecs, |checks|);
      assert checks[..|checks|] == checks;
      hide ChecksFor, ApplyAll, Rank;
    }
  }
}
