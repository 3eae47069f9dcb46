/** Greedy matching: a list of positions, each the first one after its predecessor at
    which a condition holds. The condition may depend on how many came before and on
    where the search started. */
module Matches {
  function StartOf(ms: seq<nat>, c: nat): nat
    requires c <= |ms|
  {
    if c == 0 then 0 else ms[c - 1] + 1
  }

  /** Match number `c` is the first position from `StartOf(ms, c)` that satisfies `p`. */
  ghost predicate IsMatch(p: (nat, nat, nat) -> bool, n: nat, ms: seq<nat>, c: nat)
    requires c < |ms|
  {
    var lo := StartOf(ms, c);
    lo <= ms[c] < n && p(c, lo, ms[c]) && forall i: nat | lo <= i < ms[c] :: !p(c, lo, i)
  }

  /** `ms` are all the matches below `n`. */
  ghost predicate AreMatches(p: (nat, nat, nat) -> bool, n: nat, ms: seq<nat>) {
    && (forall c: nat | c < |ms| :: IsMatch(p, n, ms, c))
    && var lo := StartOf(ms, |ms|);
       lo <= n && forall i: nat | lo <= i < n :: !p(|ms|, lo, i)
  }

  lemma {:induction false} PrefixUnique(p: (nat, nat, nat) -> bool, n: nat, a: seq<nat>, b: seq<nat>, c: nat)
    requires AreMatches(p, n, a) && AreMatches(p, n, b) && c <= |a| && c <= |b|
    ensures a[..c] == b[..c]
  {
    if c > 0 {
      PrefixUnique(p, n, a, b, c - 1);
      SameStart(a, b, c - 1);
      assert IsMatch(p, n, a, c - 1) && IsMatch(p, n, b, c - 1);
      assert a[..c] == a[..c - 1] + [a[c - 1]] && b[..c] == b[..c - 1] + [b[c - 1]];
    }
  }

  lemma SameStart(a: seq<nat>, b: seq<nat>, c: nat)
    requires c <= |a| && c <= |b| && a[..c] == b[..c]
    ensures StartOf(a, c) == StartOf(b, c)
  {
    if c > 0 {
      assert a[c - 1] == a[..c][c - 1] == b[..c][c - 1];
    }
  }

  lemma MatchHolds(p: (nat, nat, nat) -> bool, n: nat, ms: seq<nat>, c: nat)
    requires AreMatches(p, n, ms) && c < |ms|
    ensures StartOf(ms, c) <= ms[c] < n && p(c, StartOf(ms, c), ms[c])
  {
    assert IsMatch(p, n, ms, c);
  }

  lemma NotLonger(p: (nat, nat, nat) -> bool, n: nat, a: seq<nat>, b: seq<nat>)
    requires AreMatches(p, n, a) && AreMatches(p, n, b)
    ensures |a| >= |b|
  {
    if |a| < |b| {
      PrefixUnique(p, n, a, b, |a|);
      SameStart(a, b, |a|);
      MatchHolds(p, n, b, |a|);
    }
  }

  /** There is at most one list of matches: the description is a function. */
  lemma MatchesUnique(p: (nat, nat, nat) -> bool, n: nat, a: seq<nat>, b: seq<nat>)
    requires AreMatches(p, n, a) && AreMatches(p, n, b)
    ensures a == b
  {
    NotLonger(p, n, a, b);
    NotLonger(p, n, b, a);
    PrefixUnique(p, n, a, b, |a|);
    assert a[..|a|] == a && b[..|b|] == b;
  }

  lemma ExtendMatches(p: (nat, nat, nat) -> bool, n: nat, ms: seq<nat>)
    requires AreMatches(p, n, ms) && p(|ms|, StartOf(ms, |ms|), n)
    ensures AreMatches(p, n + 1, ms + [n])
  {
    var after := ms + [n];
    var e := n + 1;
    forall c: nat {:trigger IsMatch(p, e, after, c)} | c < |after|
      ensures IsMatch(p, e, after, c)
    {
      assert StartOf(after, c) == StartOf(ms, c);
      if c < |ms| {
        assert IsMatch(p, n, ms, c);
      }
    }
  }

  lemma KeepMatches(p: (nat, nat, nat) -> bool, n: nat, ms: seq<nat>)
    requires AreMatches(p, n, ms) && !p(|ms|, StartOf(ms, |ms|), n)
    ensures AreMatches(p, n + 1, ms)
  {
    var e := n + 1;
    forall c: nat {:trigger IsMatch(p, e, ms, c)} | c < |ms|
      ensures IsMatch(p, e, ms, c)
    {
      assert IsMatch(p, n, ms, c);
    }
  }
}

/** One rule over a whole history of readings: the phase that `step` keeps is a
    declarative function of the readings (`src-tauri/src/alerts.rs:160-190`). */
module AlertHistory {
  import opened Wrappers
  import opened Floats
  import opened AlertRules
  import opened Matches

  datatype Reading = Reading(breach: Option<bool>, clear: Option<bool>, sustainSecs: nat, now: nat)

  // --- What the engine computes, reading by reading ---

  function StepOn(phase: Phase, r: Reading): (Phase, Option<Transition>) {
    Step(phase, r.breach, r.clear, r.sustainSecs, r.now)
  }

  /** The phase after the first `n` readings. */
  function PhaseAt(rs: seq<Reading>, n: nat): Phase
    requires n <= |rs|
  {
    if n == 0 then Normal else StepOn(PhaseAt(rs, n - 1), rs[n - 1]).0
  }

  function TransitionAt(rs: seq<Reading>, i: nat): Option<Transition>
    requires i < |rs|
  {
    StepOn(PhaseAt(rs, i), rs[i]).1
  }

  /** The readings, among the first `n`, at which the rule fired or resolved. */
  function Changes(rs: seq<Reading>, n: nat): seq<nat>
    requires n <= |rs|
  {
    if n == 0 then [] else Changes(rs, n - 1) + if TransitionAt(rs, n - 1).Some? then [n - 1] else []
  }

  // --- What the documentation says, with no state carried along ---

  /** Reading `s` breaches, and no reading in `s..e` is a present non-breach. */
  predicate Streak(rs: seq<Reading>, s: nat, e: nat)
    requires e <= |rs|
  {
    s < e && rs[s].breach == Some(true) && forall j | s <= j < e :: rs[j].breach != Some(false)
  }

  /** `s` is the first breach, at or after `lo`, of the streak that is unbroken at `e`. */
  predicate FirstBreach(rs: seq<Reading>, lo: nat, s: nat, e: nat)
    requires e <= |rs|
  {
    lo <= s && Streak(rs, s, e) && forall j | lo <= j < s :: !Streak(rs, j, e)
  }

  /** Reading `i` breaches and finds the streak begun after `lo` at least as old as
      its sustain time. */
  ghost predicate FiresAt(rs: seq<Reading>, lo: nat, i: nat)
    requires i < |rs|
  {
    rs[i].breach == Some(true) &&
    exists s: nat | s <= i ::
      FirstBreach(rs, lo, s, i + 1) && (rs[i].sustainSecs == 0 || rs[i].now >= rs[s].now + rs[i].sustainSecs)
  }

  predicate ClearsAt(rs: seq<Reading>, i: nat)
    requires i < |rs|
  {
    rs[i].clear == Some(true)
  }

  /** Whether change number `c`, looked for from `lo` on, happens at reading `i`: even
      changes fire, odd ones clear. */
  ghost function ChangeRule(rs: seq<Reading>): (nat, nat, nat) -> bool {
    (c: nat, lo: nat, i: nat) => i < |rs| && if c % 2 == 0 then FiresAt(rs, lo, i) else ClearsAt(rs, i)
  }

  /** The phase described when the search for change number `c` started at `lo`. */
  ghost predicate DescribesFrom(rs: seq<Reading>, n: nat, lo: nat, c: nat, phase: Phase)
    requires n <= |rs|
  {
    match phase
    case Firing => c % 2 == 1
    case Pending(since) => c % 2 == 0 && exists s: nat | s < n :: FirstBreach(rs, lo, s, n) && since == rs[s].now
    case Normal => c % 2 == 0 && forall s: nat | lo <= s < n :: !Streak(rs, s, n)
  }

  // --- The two agree ---

  /** The history theorem. For every history, the readings at which the engine makes a
      transition are exactly the changes the documentation describes, and the phase it
      holds is the one described. */
  lemma {:induction false} PhaseIsHistory(rs: seq<Reading>, n: nat)
    requires n <= |rs|
    ensures AreMatches(ChangeRule(rs), n, Changes(rs, n))
    ensures var lo := StartOf(Changes(rs, n), |Changes(rs, n)|);
      DescribesFrom(rs, n, lo, |Changes(rs, n)|, PhaseAt(rs, n))
  {
    if n > 0 {
      var m := n - 1;
      PhaseIsHistory(rs, m);
      var before := Changes(rs, m);
      var lo := StartOf(before, |before|);
      StepMatches(rs, m, lo, |before|, PhaseAt(rs, m));
      if TransitionAt(rs, m).Some? {
        assert Changes(rs, n) == before + [m];
        ExtendMatches(ChangeRule(rs), m, before);
        NoLaterStreak(rs, n);
        assert StartOf(before + [m], |before| + 1) == n;
      } else {
        assert Changes(rs, n) == before;
        KeepMatches(ChangeRule(rs), m, before);
      }
    }
  }

  /** Fired and resolved alternate, starting with fired. */
  lemma {:induction false} TransitionsAlternate(rs: seq<Reading>, n: nat)
    requires n <= |rs|
    ensures PhaseAt(rs, n).Firing? <==> |Changes(rs, n)| % 2 == 1
    ensures forall c: nat | c < |Changes(rs, n)| ::
              Changes(rs, n)[c] < n && TransitionAt(rs, Changes(rs, n)[c]) == Some(if c % 2 == 0 then Fired else Resolved)
  {
    if n > 0 {
      TransitionsAlternate(rs, n - 1);
    }
  }

  lemma NoLaterStreak(rs: seq<Reading>, n: nat)
    requires n <= |rs|
    ensures forall s: nat | n <= s :: !Streak(rs, s, n)
  {
  }

  /** A streak at `n + 1` is one at `n`, or starts at `n`. */
  lemma StreakGrows(rs: seq<Reading>, s: nat, n: nat)
    requires s < n < |rs|
    ensures Streak(rs, s, n + 1) <==> Streak(rs, s, n) && rs[n].breach != Some(false)
  {
  }

  lemma FirstBreachGrows(rs: seq<Reading>, lo: nat, s: nat, n: nat, e: nat)
    requires s < n < |rs| && e == n + 1 && FirstBreach(rs, lo, s, n) && rs[n].breach != Some(false)
    ensures forall t: nat :: FirstBreach(rs, lo, t, e) <==> t == s
  {
    StreakGrows(rs, s, n);
    forall j: nat | lo <= j < s
      ensures !Streak(rs, j, e)
    {
      StreakGrows(rs, j, n);
    }
    OnlyThisBreach(rs, lo, s, e);
  }

  lemma FirstBreachStarts(rs: seq<Reading>, lo: nat, n: nat, e: nat)
    requires lo <= n < |rs| && e == n + 1 && rs[n].breach == Some(true)
    requires forall s: nat | lo <= s < n :: !Streak(rs, s, n)
    ensures forall t: nat :: FirstBreach(rs, lo, t, e) <==> t == n
  {
    forall j: nat | lo <= j < n
      ensures !Streak(rs, j, e)
    {
      StreakGrows(rs, j, n);
    }
    OnlyThisBreach(rs, lo, n, e);
  }

  lemma ChangeRuleIs(rs: seq<Reading>, c: nat, lo: nat, i: nat)
    requires i < |rs|
    ensures ChangeRule(rs)(c, lo, i) <==> if c % 2 == 0 then FiresAt(rs, lo, i) else ClearsAt(rs, i)
  {
  }

  lemma StepMatches(rs: seq<Reading>, n: nat, lo: nat, c: nat, phase: Phase)
    requires n < |rs| && lo <= n && phase == PhaseAt(rs, n)
    requires DescribesFrom(rs, n, lo, c, phase)
    ensures TransitionAt(rs, n).Some? <==> ChangeRule(rs)(c, lo, n)
    ensures TransitionAt(rs, n).Some? ==> TransitionAt(rs, n).value == if c % 2 == 0 then Fired else Resolved
    ensures if TransitionAt(rs, n).Some? then PhaseAt(rs, n + 1) == (if c % 2 == 0 then Firing else Normal)
            else DescribesFrom(rs, n + 1, lo, c, PhaseAt(rs, n + 1))
  {
    ChangeRuleIs(rs, c, lo, n);
    match phase
    case Firing =>
      assert c % 2 == 1;
    case Normal =>
      assert c % 2 == 0;
      if rs[n].breach == Some(true) {
        FirstBreachStarts(rs, lo, n, n + 1);
        assert FirstBreach(rs, lo, n, n + 1);
      } else {
        NoLaterStreak(rs, n);
        NoStreakNow(rs, lo, n, n + 1);
      }
    case Pending(since) =>
      assert c % 2 == 0;
      var s: nat :| s < n && FirstBreach(rs, lo, s, n) && since == rs[s].now;
      if rs[n].breach != Some(false) {
        FirstBreachGrows(rs, lo, s, n, n + 1);
        assert FirstBreach(rs, lo, s, n + 1);
      } else {
        NoStreakNow(rs, lo, n, n + 1);
      }
  }

  lemma NoStreakNow(rs: seq<Reading>, lo: nat, n: nat, e: nat)
    requires n < |rs| && e == n + 1 && rs[n].breach != Some(true)
    requires rs[n].breach == Some(false) || forall s: nat | lo <= s < n :: !Streak(rs, s, n)
    ensures forall s: nat | lo <= s < e :: !Streak(rs, s, e)
  {
    forall s: nat | lo <= s < n
      ensures !Streak(rs, s, e)
    {
      StreakGrows(rs, s, n);
    }
  }

  lemma OnlyThisBreach(rs: seq<Reading>, lo: nat, s: nat, e: nat)
    requires e <= |rs| && FirstBreach(rs, lo, s, e)
    ensures forall t: nat :: FirstBreach(rs, lo, t, e) ==> t == s
  {
    forall t: nat | FirstBreach(rs, lo, t, e)
      ensures t == s
    {
      assert !(lo <= t < s) && !(lo <= s < t);
    }
  }

  // --- Threshold rules: no re-fire without a full descent through the band ---

  /** The readings that one threshold rule makes of a series of values. */
  function ReadingsOf(rule: ThresholdRule, samples: seq<(Option<Float>, nat)>): (rs: seq<Reading>)
    ensures |rs| == |samples|
    ensures forall i | 0 <= i < |samples| ::
              rs[i] == Reading(if samples[i].0.None? then None else Some(Breaches(rule, samples[i].0.value)),
                               if samples[i].0.None? then None else Some(Clears(rule, samples[i].0.value)),
                               rule.sustainSecs, samples[i].1)
  {
    seq(|samples|, i requires 0 <= i < |samples| =>
      Reading(if samples[i].0.None? then None else Some(Breaches(rule, samples[i].0.value)),
              if samples[i].0.None? then None else Some(Clears(rule, samples[i].0.value)),
              rule.sustainSecs, samples[i].1))
  }

  /** How often the values were seen at or over the level `top` and later under `bottom`, and
      whether they have been at `top` since the last time. */
  function Descents(samples: seq<(Option<Float>, nat)>, top: real, bottom: real, n: nat): (nat, bool)
    requires n <= |samples|
  {
    if n == 0 then (0, false)
    else
      var (count, over) := Descents(samples, top, bottom, n - 1);
      var value := samples[n - 1].0;
      if over && value.Some? && Under(value.value, bottom) then (count + 1, false)
      else (count, over || (value.Some? && AtLeast(value.value, top)))
  }

  function Fires(rs: seq<Reading>, n: nat): nat
    requires n <= |rs|
  {
    if n == 0 then 0 else Fires(rs, n - 1) + if TransitionAt(rs, n - 1) == Some(Fired) then 1 else 0
  }

  lemma {:induction false} FiresCounted(rule: ThresholdRule, samples: seq<(Option<Float>, nat)>, n: nat)
    requires n <= |samples| && FiniteRule(rule) && rule.hysteresis.r >= 0.0
    ensures var rs := ReadingsOf(rule, samples);
      var (count, over) := Descents(samples, rule.threshold.r, rule.threshold.r - rule.hysteresis.r, n);
      && Fires(rs, n) <= count + (if PhaseAt(rs, n).Firing? then 1 else 0)
      && (PhaseAt(rs, n).Firing? ==> over)
  {
    if n > 0 {
      FiresCounted(rule, samples, n - 1);
      var value := samples[n - 1].0;
      if value.Some? {
        BandIs(rule, value.value);
      }
      hide Breaches, Clears;
    }
  }

  /** A sanitised rule fires at most once more than the value has descended from the threshold
      to below the threshold less the hysteresis. */
  lemma FiresNeedDescents(rule: ThresholdRule, min: real, max: real, samples: seq<(Option<Float>, nat)>)
    requires 0.0 < min <= max && RuleInRange(rule, min, max)
    ensures var rs := ReadingsOf(rule, samples);
      Fires(rs, |rs|) <= 1 + Descents(samples, rule.threshold.r, rule.threshold.r - rule.hysteresis.r, |samples|).0
  {
    FiresCounted(rule, samples, |samples|);
  }

  /** The value fires the rule; for a rule with finite limits, it is at or over its threshold. */
  ghost predicate AtThreshold(rule: ThresholdRule, value: Option<Float>) {
    && value.Some? && Breaches(rule, value.value)
    && (FiniteRule(rule) ==> AtLeast(value.value, rule.threshold.r))
  }

  /** The value clears the rule; for a rule with finite limits, it is below its threshold less
      its hysteresis. */
  ghost predicate BelowBand(rule: ThresholdRule, value: Option<Float>) {
    && value.Some? && Clears(rule, value.value)
    && (FiniteRule(rule) ==> Under(value.value, rule.threshold.r - rule.hysteresis.r))
  }

  /** A rule fires at a value that is at or over its threshold, and between two fires there is
      a value below the threshold less the hysteresis. */
  lemma RefireNeedsClear(rule: ThresholdRule, samples: seq<(Option<Float>, nat)>, i: nat, j: nat) returns (m: nat)
    requires i < j < |samples|
    requires var rs := ReadingsOf(rule, samples);
      TransitionAt(rs, i) == Some(Fired) && TransitionAt(rs, j) == Some(Fired)
    ensures AtThreshold(rule, samples[i].0) && AtThreshold(rule, samples[j].0)
    ensures i < m < j && BelowBand(rule, samples[m].0)
  {
    var rs := ReadingsOf(rule, samples);
    m := ClearedBetween(rs, i, j);
    if FiniteRule(rule) {
      BandIs(rule, samples[i].0.value);
      BandIs(rule, samples[j].0.value);
      BandIs(rule, samples[m].0.value);
    }
  }

  /** A firing rule stays so, without a transition, exactly as long as no value is below the
      band: inside it, however long, and with no value or NaN nothing happens. */
  lemma HoldsInBand(rule: ThresholdRule, samples: seq<(Option<Float>, nat)>, i: nat)
    requires i < |samples| && FiniteRule(rule) && PhaseAt(ReadingsOf(rule, samples), i).Firing?
    ensures var rs := ReadingsOf(rule, samples);
      var below := samples[i].0.Some? && Under(samples[i].0.value, rule.threshold.r - rule.hysteresis.r);
      && (PhaseAt(rs, i + 1).Firing? <==> !below)
      && TransitionAt(rs, i) == if below then Some(Resolved) else None
  {
    if samples[i].0.Some? {
      BandIs(rule, samples[i].0.value);
    }
  }

  lemma {:induction false} ClearedBetween(rs: seq<Reading>, i: nat, j: nat) returns (m: nat)
    requires i < j < |rs| && TransitionAt(rs, i) == Some(Fired) && !PhaseAt(rs, j).Firing?
    ensures i < m < j && ClearsAt(rs, m)
  {
    assert PhaseAt(rs, i + 1).Firing?;
    m := j - 1;
    if PhaseAt(rs, j - 1).Firing? {
    } else {
      m := ClearedBetween(rs, i, j - 1);
    }
  }
}
