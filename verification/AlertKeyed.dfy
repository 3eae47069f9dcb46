/** One alert key seen alone: what the calls of a run do to that key, and what holds
    of it over every run. `AlertRuns.dfy` proves that the engine's maps are the
    product of these machines. */
module AlertKeyed {
  import opened Wrappers
  import opened Floats
  import opened AlertRules
  import opened AlertHistory
  import opened AlertState

  datatype KeyState = KeyState(phase: Phase, lastNotified: Option<nat>, active: Option<AlertEvent>)

  /** What one call may do to a key: apply its rule, start every rule afresh (new
      settings), or forget the key's scope. */
  datatype KeyOp =
    | Apply(host: string, check: Check, shown: Option<Float>, now: nat, cooldown: nat)
    | Reset
    | Forget

  const NEW_KEY := KeyState(Normal, None, None)

  function ReadingOf(op: KeyOp): Reading
    requires op.Apply?
  {
    Reading(op.check.breach, op.check.clear, op.check.sustainSecs, op.now)
  }

  function KeyStep(key: AlertKey, ks: KeyState, op: KeyOp): (KeyState, Option<AlertEvent>) {
    match op
    case Reset => (ks.(phase := Normal), None)
    case Forget => (ks.(phase := Normal, active := None), None)
    case Apply(host, check, shown, now, cooldown) =>
      var (next, transition) := StepOn(ks.phase, ReadingOf(op));
      if transition.None? then (ks.(phase := next), None)
      else
        var fired := transition.value == Fired;
        var notify := fired && (ks.lastNotified.None? || SaturatingSub(now, ks.lastNotified.value) >= cooldown);
        var event := AlertEvent(key.scope, host, key.kind, key.subject, fired, check.value, shown, now, notify);
        (KeyState(next,
                  if notify then Some(now) else ks.lastNotified,
                  if fired then Some(event) else None),
         Some(event))
  }

  /** The key after the first `n` operations of its history. */
  function KeyAt(key: AlertKey, ops: seq<KeyOp>, n: nat): KeyState
    requires n <= |ops|
  {
    if n == 0 then NEW_KEY else KeyStep(key, KeyAt(key, ops, n - 1), ops[n - 1]).0
  }

  /** The event, if any, that operation `i` produces. */
  function EventAt(key: AlertKey, ops: seq<KeyOp>, i: nat): Option<AlertEvent>
    requires i < |ops|
  {
    KeyStep(key, KeyAt(key, ops, i), ops[i]).1
  }

  function KeyEvents(key: AlertKey, ops: seq<KeyOp>, n: nat): seq<AlertEvent>
    requires n <= |ops|
  {
    if n == 0 then [] else KeyEvents(key, ops, n - 1) + AsSeq(EventAt(key, ops, n - 1))
  }

  lemma {:induction false} KeyPrefix(key: AlertKey, a: seq<KeyOp>, b: seq<KeyOp>, n: nat)
    requires n <= |a| && n <= |b| && a[..n] == b[..n]
    ensures KeyAt(key, a, n) == KeyAt(key, b, n)
    ensures KeyEvents(key, a, n) == KeyEvents(key, b, n)
  {
    if n > 0 {
      assert a[..n - 1] == a[..n][..n - 1] == b[..n][..n - 1] == b[..n - 1];
      assert a[n - 1] == a[..n][n - 1] == b[..n][n - 1] == b[n - 1];
      KeyPrefix(key, a, b, n - 1);
    }
  }

  // --- The phase is the history since the last reset ---

  /** The readings among the first `n` operations since the last reset or forget. */
  function ReadingsSince(ops: seq<KeyOp>, n: nat): seq<Reading>
    requires n <= |ops|
  {
    if n == 0 then []
    else if ops[n - 1].Apply? then ReadingsSince(ops, n - 1) + [ReadingOf(ops[n - 1])]
    else []
  }

  /** The events since the last reset or forget. */
  function EventsSince(key: AlertKey, ops: seq<KeyOp>, n: nat): seq<AlertEvent>
    requires n <= |ops|
  {
    if n == 0 then []
    else if ops[n - 1].Apply? then EventsSince(key, ops, n - 1) + AsSeq(EventAt(key, ops, n - 1))
    else []
  }

  lemma {:induction false} PhasePrefix(a: seq<Reading>, b: seq<Reading>, n: nat)
    requires n <= |a| && n <= |b| && a[..n] == b[..n]
    ensures PhaseAt(a, n) == PhaseAt(b, n) && Changes(a, n) == Changes(b, n)
  {
    if n > 0 {
      assert a[..n - 1] == a[..n][..n - 1] == b[..n][..n - 1] == b[..n - 1];
      assert a[n - 1] == a[..n][n - 1] == b[..n][n - 1] == b[n - 1];
      PhasePrefix(a, b, n - 1);
    }
  }

  /** The stored phase is that of the history of readings since the last reset, and
      nothing else in the key's past matters. */
  lemma {:induction false} KeyIsHistory(key: AlertKey, ops: seq<KeyOp>, n: nat)
    requires n <= |ops|
    ensures KeyAt(key, ops, n).phase == PhaseAt(ReadingsSince(ops, n), |ReadingsSince(ops, n)|)
  {
    if n > 0 {
      KeyIsHistory(key, ops, n - 1);
      if ops[n - 1].Apply? {
        var before := ReadingsSince(ops, n - 1);
        PhasePrefix(before, ReadingsSince(ops, n), |before|);
      }
    }
  }

  /** Between resets a key's events alternate fired, resolved, starting with fired, and
      the key is firing exactly when the last of them fired. */
  lemma {:induction false} EventsAlternate(key: AlertKey, ops: seq<KeyOp>, n: nat)
    requires n <= |ops|
    ensures forall c: nat | c < |EventsSince(key, ops, n)| :: EventsSince(key, ops, n)[c].fired == (c % 2 == 0)
    ensures KeyAt(key, ops, n).phase.Firing? <==> |EventsSince(key, ops, n)| % 2 == 1
  {
    if n > 0 {
      EventsAlternate(key, ops, n - 1);
      if ops[n - 1].Apply? {
        EventMatchesPhase(key, KeyAt(key, ops, n - 1), ops[n - 1]);
        AlternationGrows(EventsSince(key, ops, n - 1), EventAt(key, ops, n - 1));
      }
    }
  }

  lemma AlternationGrows(events: seq<AlertEvent>, event: Option<AlertEvent>)
    requires forall c: nat | c < |events| :: events[c].fired == (c % 2 == 0)
    requires event.Some? ==> event.value.fired == (|events| % 2 == 0)
    ensures forall c: nat | c < |events + AsSeq(event)| :: (events + AsSeq(event))[c].fired == (c % 2 == 0)
  {
  }

  lemma EventMatchesPhase(key: AlertKey, ks: KeyState, op: KeyOp)
    requires op.Apply?
    ensures var (after, event) := KeyStep(key, ks, op);
      if event.Some? then event.value.fired == !ks.phase.Firing? && after.phase.Firing? == event.value.fired
      else after.phase.Firing? == ks.phase.Firing?
  {
    FiringFires(ks.phase, ReadingOf(op));
  }

  lemma FiringFires(phase: Phase, r: Reading)
    ensures var (next, t) := StepOn(phase, r);
      if t.Some? then t.value == (if phase.Firing? then Resolved else Fired) && next.Firing? == !phase.Firing?
      else next.Firing? == phase.Firing?
  {
  }

  lemma {:induction false} EventsSinceAreLast(key: AlertKey, ops: seq<KeyOp>, n: nat)
    requires n <= |ops|
    ensures exists early :: KeyEvents(key, ops, n) == early + EventsSince(key, ops, n)
  {
    if n == 0 {
      assert KeyEvents(key, ops, n) == [] + EventsSince(key, ops, n);
    } else {
      EventsSinceAreLast(key, ops, n - 1);
      if ops[n - 1].Apply? {
        var early :| KeyEvents(key, ops, n - 1) == early + EventsSince(key, ops, n - 1);
        assert KeyEvents(key, ops, n) == early + EventsSince(key, ops, n);
      } else {
        assert KeyEvents(key, ops, n) == KeyEvents(key, ops, n) + EventsSince(key, ops, n);
      }
    }
  }

  // --- `active` ---

  /** Operation `i` reset the key while it was active, and nothing has happened to it since. */
  ghost predicate StrandedBy(key: AlertKey, ops: seq<KeyOp>, n: nat, i: nat)
    requires n <= |ops|
  {
    && i < n && ops[i].Reset?
    && KeyAt(key, ops, i).active.Some?
    && forall j: nat | i < j < n :: !ops[j].Forget? && EventAt(key, ops, j).None?
  }

  ghost predicate Stranded(key: AlertKey, ops: seq<KeyOp>, n: nat)
    requires n <= |ops|
  {
    exists i: nat :: StrandedBy(key, ops, n, i)
  }

  /** The newest event since the scope was last forgotten. */
  function LatestEvent(key: AlertKey, ops: seq<KeyOp>, n: nat): Option<AlertEvent>
    requires n <= |ops|
  {
    if n == 0 || ops[n - 1].Forget? then None
    else if EventAt(key, ops, n - 1).Some? then EventAt(key, ops, n - 1)
    else LatestEvent(key, ops, n - 1)
  }

  /** `active` holds a key exactly when its newest event since the scope was forgotten
      fired, and then holds that event. A firing key is always in it. It holds a key
      that is not firing exactly when new settings stranded it there. */
  lemma {:induction false} ActiveIsHistory(key: AlertKey, ops: seq<KeyOp>, n: nat)
    requires n <= |ops|
    ensures var ks := KeyAt(key, ops, n);
      && (var e := LatestEvent(key, ops, n); ks.active == if e.Some? && e.value.fired then e else None)
      && (ks.active.Some? ==> EventKey(ks.active.value) == key)
      && (ks.phase.Firing? ==> ks.active.Some?)
      && (ks.active.Some? && !ks.phase.Firing? <==> Stranded(key, ops, n))
  {
    if n > 0 {
      ActiveIsHistory(key, ops, n - 1);
      StrandedGrows(key, ops, n - 1);
    }
  }

  /** Whether the key is stranded after operation `m`, from whether it was before. */
  lemma StrandedGrows(key: AlertKey, ops: seq<KeyOp>, m: nat)
    requires m < |ops|
    ensures Stranded(key, ops, m + 1) <==>
            || (ops[m].Reset? && KeyAt(key, ops, m).active.Some?)
            || (!ops[m].Forget? && EventAt(key, ops, m).None? && Stranded(key, ops, m))
  {
    if ops[m].Reset? && KeyAt(key, ops, m).active.Some? {
      assert StrandedBy(key, ops, m + 1, m);
    } else if !ops[m].Forget? && EventAt(key, ops, m).None? && Stranded(key, ops, m) {
      var i: nat :| StrandedBy(key, ops, m, i);
      assert StrandedBy(key, ops, m + 1, i);
    }
    if Stranded(key, ops, m + 1) {
      var i: nat :| StrandedBy(key, ops, m + 1, i);
      if i < m {
        StrandedEarlier(key, ops, m, i);
      }
    }
  }

  lemma StrandedEarlier(key: AlertKey, ops: seq<KeyOp>, m: nat, i: nat)
    requires i < m < |ops| && StrandedBy(key, ops, m + 1, i)
    ensures !ops[m].Forget? && EventAt(key, ops, m).None? && StrandedBy(key, ops, m, i)
  {
  }

  // --- The cooldown ---

  predicate NotifiesAt(key: AlertKey, ops: seq<KeyOp>, i: nat)
    requires i < |ops|
  {
    EventAt(key, ops, i).Some? && EventAt(key, ops, i).value.notify
  }

  /** `i` is the last operation before `n` that notified. */
  ghost predicate LastNotice(key: AlertKey, ops: seq<KeyOp>, n: nat, i: nat)
    requires n <= |ops|
  {
    i < n && NotifiesAt(key, ops, i) && forall j: nat | i < j < n :: !NotifiesAt(key, ops, j)
  }

  /** The engine remembers the last notification of the whole run, whatever was reset
      or forgotten since. */
  lemma {:induction false} LastNotifiedIsHistory(key: AlertKey, ops: seq<KeyOp>, n: nat)
    requires n <= |ops|
    ensures match KeyAt(key, ops, n).lastNotified
      case None => forall i: nat | i < n :: !NotifiesAt(key, ops, i)
      case Some(at) => exists i: nat :: LastNotice(key, ops, n, i) && ops[i].Apply? && ops[i].now == at
  {
    if n > 0 {
      hide StepOn;
      LastNotifiedIsHistory(key, ops, n - 1);
      if NotifiesAt(key, ops, n - 1) {
        assert LastNotice(key, ops, n, n - 1);
      } else if KeyAt(key, ops, n - 1).lastNotified.Some? {
        var i: nat :| LastNotice(key, ops, n - 1, i) && ops[i].Apply? && ops[i].now == KeyAt(key, ops, n - 1).lastNotified.value;
        assert LastNotice(key, ops, n, i);
      }
    }
  }

  /** A fired event is silent exactly when the last notification is younger than the
      cooldown in force. */
  lemma SilentOnlyInCooldown(key: AlertKey, ops: seq<KeyOp>, n: nat)
    requires n < |ops| && EventAt(key, ops, n).Some? && EventAt(key, ops, n).value.fired
    ensures !NotifiesAt(key, ops, n) <==>
            exists i: nat :: LastNotice(key, ops, n, i) && ops[i].Apply?
                             && ops[n].cooldown > 0 && ops[n].now < ops[i].now + ops[n].cooldown
  {
    LastNotifiedIsHistory(key, ops, n);
    if KeyAt(key, ops, n).lastNotified.Some? {
      var i: nat :| LastNotice(key, ops, n, i) && ops[i].Apply? && ops[i].now == KeyAt(key, ops, n).lastNotified.value;
      forall j: nat | LastNotice(key, ops, n, j)
        ensures i == j
      {
        assert !(i < j) && !(j < i);
      }
    }
  }

  /** Either every cooldown is positive (sanitised settings see to that), or the clock
      never goes back. */
  predicate Spaced(ops: seq<KeyOp>) {
    || (forall i | 0 <= i < |ops| && ops[i].Apply? :: ops[i].cooldown > 0)
    || (forall i, j | 0 <= i <= j < |ops| && ops[i].Apply? && ops[j].Apply? :: ops[i].now <= ops[j].now)
  }

  /** Any two notifications of a key are at least the later one's cooldown apart. */
  lemma {:induction false} NotificationsSpaced(key: AlertKey, ops: seq<KeyOp>, i: nat, n: nat)
    requires i < n < |ops| && NotifiesAt(key, ops, i) && NotifiesAt(key, ops, n)
    requires Spaced(ops)
    ensures ops[i].Apply? && ops[n].Apply? && ops[n].now >= ops[i].now + ops[n].cooldown
  {
    hide StepOn;
    LastNotifiedIsHistory(key, ops, n);
    var last: nat :| LastNotice(key, ops, n, last) && ops[last].Apply? && ops[last].now == KeyAt(key, ops, n).lastNotified.value;
    assert i <= last;
    if i < last {
      NotificationsSpaced(key, ops, i, last);
    }
  }

  /** The hypothesis is needed. With a zero cooldown, which sanitised settings never have, a
      clock that jumped back would overwrite the memory of a later notification. */
  lemma UnspacedCounterexample() returns (key: AlertKey, ops: seq<KeyOp>)
    ensures |ops| == 5 && NotifiesAt(key, ops, 0) && NotifiesAt(key, ops, 4)
    ensures ops[0].Apply? && ops[4].Apply? && ops[4].now < ops[0].now + ops[4].cooldown
  {
    var fire := Check(Memory, "", None, Fin(0.0), Some(true), Some(false), 0);
    var clear := Check(Memory, "", None, Fin(0.0), Some(false), Some(true), 0);
    key := AlertKey("s", Memory, "");
    ops := [
      Apply("h", fire, None, 1000, 0), Apply("h", clear, None, 1000, 0),
      Apply("h", fire, None, 10, 0), Apply("h", clear, None, 10, 0),
      Apply("h", fire, None, 1010, 60)];
    assert KeyAt(key, ops, 1) == KeyStep(key, NEW_KEY, ops[0]).0;
    assert KeyAt(key, ops, 2) == KeyStep(key, KeyAt(key, ops, 1), ops[1]).0;
    assert KeyAt(key, ops, 3) == KeyStep(key, KeyAt(key, ops, 2), ops[2]).0;
    assert KeyAt(key, ops, 4) == KeyStep(key, KeyAt(key, ops, 3), ops[3]).0;
  }
}
