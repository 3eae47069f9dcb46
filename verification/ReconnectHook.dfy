/** The hook as the source has it: refs that the callbacks mutate in place, each proved
    to make the move of the same name in `Reconnect.dfy`. */
module ReconnectHook {
  import opened PermanentErrors
  import opened Reconnect
  import R = Reconnect

  class AutoReconnect {
    var lost: seq<Id>
    var connected: seq<Id>
    var profiles: set<Id>
    var online: bool
    var attempts: map<Id, nat>
    var timers: map<Id, nat>
    var inFlight: set<Id>
    var armed: map<nat, Timer>
    var nextTimer: nat
    var requests: map<nat, Id>
    var nextRequest: nat
    ghost var settling: set<Id>
    ghost var effectDue: bool
    ghost var failures: map<Id, nat>
    ghost var log: Log

    constructor ()
      ensures View() == START
    {
      lost, connected, profiles, online := [], [], {}, true;
      attempts, timers, inFlight := map[], map[], {};
      armed, nextTimer, requests, nextRequest := map[], 0, map[], 0;
      settling, effectDue, failures, log := {}, false, map[], Log(map[], {}, {});
    }

    ghost function View(): State
      reads this
    {
      State(lost, connected, profiles, online, attempts, timers, inFlight, armed, nextTimer, requests, nextRequest,
            settling, effectDue, failures, log)
    }

    method ClearSessionLost(s: Id)
      modifies this
      ensures View() == ClearLost(old(View()), s)
    {
      if s in lost {
        lost := Remove(lost, s);
        effectDue := true;
        failures := failures - {s};
      }
    }

    method FinishSession(s: Id)
      modifies this
      ensures View() == Finish(old(View()), s)
    {
      attempts := attempts - {s};
      ClearSessionLost(s);
    }

    method ScheduleRetry(s: Id)
      modifies this
      ensures View() == Arm(old(View()), s)
    {
      var attempt := if s in attempts then attempts[s] else 0;
      armed := armed[nextTimer := Timer(s, DelayMs(attempt))];
      timers := timers[s := nextTimer];
      nextTimer := nextTimer + 1;
    }

    method DropTimer(s: Id)
      modifies this`timers, this`armed
      ensures View() == ClearTimer(old(View()), s)
    {
      if s in timers {
        armed := armed - {timers[s]};
        timers := timers - {s};
      }
    }

    method BeginConnect(s: Id)
      modifies this`inFlight, this`requests, this`nextRequest
      ensures View() == Connect(old(View()), s)
    {
      inFlight := inFlight + {s};
      requests := requests[nextRequest := s];
      nextRequest := nextRequest + 1;
    }

    method AttemptNow(s: Id)
      modifies this
      ensures View() == Attempt(old(View()), s)
    {
      hide ClearTimer, Finish, Arm, Connect;
      DropTimer(s);
      if s in inFlight {
        return;
      }
      if s !in lost {
        return;
      }
      if s in connected {
        FinishSession(s);
        return;
      }
      if s !in profiles {
        FinishSession(s);
        return;
      }
      if !online {
        ScheduleRetry(s);
        return;
      }
      BeginConnect(s);
    }

    /** Retries every session lost when the event came. */
    method RetryAllNow()
      modifies this
      ensures View() == AttemptAll(old(View()), old(lost))
    {
      hide Attempt;
      var ids := lost;
      var i := 0;
      while i < |ids|
        invariant 0 <= i <= |ids|
        invariant View() == AttemptAll(old(View()), ids[..i])
      {
        assert ids[..i + 1][..i] == ids[..i];
        AttemptNow(ids[i]);
        i := i + 1;
      }
      assert ids[..i] == ids;
    }

    method OnConnected(req: nat)
      requires req in requests
      modifies this
      ensures View() == R.Resolved(old(View()), req)
    {
      hide Finish, Succeed, Adopt, HandBack;
      var s := requests[req];
      var stillWanted := s in lost;
      TakeAnswer(req);
      FinishSession(s);
      if !stillWanted {
        DisconnectTerminal(req);
        return;
      }
      AdoptSession(req, s);
    }

    method Settle(req: nat)
      requires req in requests
      modifies this`requests, this`settling
      ensures View() == Settled(old(View()), req)
    {
      settling := settling + {requests[req]};
      requests := requests - {req};
    }

    method TakeAnswer(req: nat)
      requires req in requests
      modifies this`requests, this`settling, this`log
      ensures View() == Succeed(old(View()), req)
    {
      hide Settled;
      var s := requests[req];
      Settle(req);
      log := log.(succeeded := log.succeeded[req := s]);
    }

    method DisconnectTerminal(ghost req: nat)
      modifies this`log
      ensures View() == HandBack(old(View()), req)
    {
      log := log.(handedBack := log.handedBack + {req});
    }

    method AdoptSession(ghost req: nat, s: Id)
      modifies this`connected, this`log
      ensures View() == Adopt(old(View()), req, s)
    {
      if s !in connected {
        connected := connected + [s];
      }
      log := log.(adopted := log.adopted + {req});
    }

    method CountFailedConnect(req: nat) returns (attempt: nat)
      requires req in requests
      modifies this`requests, this`settling, this`failures, this`attempts
      ensures attempt == AttemptsOf(old(View()), old(requests[req])) + 1
      ensures View() == Failed(old(View()), req)
    {
      hide Bump, Settled;
      var s := requests[req];
      attempt := (if s in attempts then attempts[s] else 0) + 1;
      Settle(req);
      failures := Bump(failures, s);
      attempts := attempts[s := attempt];
    }

    method OnFailed(req: nat, lower: char -> string, error: string)
      requires req in requests
      modifies this
      ensures View() == R.Rejected(old(View()), req, Lower(lower, error))
    {
      hide Finish, Arm, Failed, IsPermanentText, Lower;
      var s := requests[req];
      var attempt := CountFailedConnect(req);
      if IsPermanentReconnectError(lower, error) || attempt >= 10 {
        FinishSession(s);
        return;
      }
      ScheduleRetry(s);
    }

    method OnFinally(s: Id)
      modifies this
      ensures View() == R.Finally(old(View()), s)
    {
      inFlight := inFlight - {s};
      settling := settling - {s};
    }

    /** First loop of the scheduling effect. */
    method ArmNewlyLost()
      modifies this
      ensures View() == ArmMissing(old(View()), old(lost))
    {
      var ids := lost;
      var i := 0;
      while i < |ids|
        invariant 0 <= i <= |ids|
        invariant View() == ArmMissing(old(View()), ids[..i])
      {
        assert ids[..i + 1][..i] == ids[..i];
        if ids[i] !in timers && ids[i] !in inFlight {
          ScheduleRetry(ids[i]);
        }
        i := i + 1;
      }
      assert ids[..i] == ids;
    }

    /** Second loop: no timer or count is kept for a session no longer lost. */
    method PruneTimers()
      modifies this`timers, this`armed, this`attempts
      ensures View() == Prune(old(View()))
    {
      var pending := timers.Keys;
      ghost var t0, a0, c0 := timers, armed, attempts;
      ghost var gone: set<Id> := {};
      NothingGone(t0, lost);
      hide Gone, TimersOf;
      while pending != {}
        invariant pending <= t0.Keys && gone == Gone(t0.Keys, lost, pending) && gone <= t0.Keys
        invariant timers == t0 - gone && attempts == c0 - gone && armed == a0 - TimersOf(t0, gone)
        decreases pending
      {
        var s :| s in pending;
        GoneStep(t0.Keys, lost, pending, s);
        if s !in lost {
          PruneOne(t0, a0, gone, s);
          armed := armed - {timers[s]};
          timers := timers - {s};
          attempts := attempts - {s};
          gone := gone + {s};
        }
        pending := pending - {s};
      }
      PrunesGone(old(View()));
    }

    /** The sessions among `ids` dealt with so far that are not lost. */
    static ghost function Gone(ids: set<Id>, lost: seq<Id>, pending: set<Id>): set<Id> {
      set s | s in ids && s !in lost && s !in pending
    }

    static lemma NothingGone(timers: map<Id, nat>, lost: seq<Id>)
      ensures Gone(timers.Keys, lost, timers.Keys) == {} && TimersOf(timers, {}) == {}
    {
    }

    static lemma GoneStep(ids: set<Id>, lost: seq<Id>, pending: set<Id>, s: Id)
      requires pending <= ids && s in pending
      ensures s !in Gone(ids, lost, pending)
      ensures Gone(ids, lost, pending - {s}) == Gone(ids, lost, pending) + if s in lost then {} else {s}
    {
    }

    static lemma PrunesGone(st: State)
      ensures var gone := Gone(st.timers.Keys, st.lost, {});
        gone <= st.timers.Keys && Prune(st) ==
          st.(timers := st.timers - gone, armed := st.armed - TimersOf(st.timers, gone), attempts := st.attempts - gone)
    {
      assert Gone(st.timers.Keys, st.lost, {}) == set s | s in st.timers && s !in st.lost;
    }

    static lemma PruneOne(t0: map<Id, nat>, a0: map<nat, Timer>, gone: set<Id>, s: Id)
      requires gone <= t0.Keys && s in t0
      ensures a0 - TimersOf(t0, gone + {s}) == a0 - TimersOf(t0, gone) - {t0[s]}
    {
      assert TimersOf(t0, gone + {s}) == TimersOf(t0, gone) + {t0[s]};
    }

    static lemma {:induction false} ArmMissingLost(st: State, ids: seq<Id>)
      ensures ArmMissing(st, ids).lost == st.lost && ArmMissing(st, ids).effectDue == st.effectDue
    {
      if ids != [] {
        ArmMissingLost(st, ids[..|ids| - 1]);
      }
    }

    method RunSchedulingEffect()
      modifies this
      ensures View() == R.Effect(old(View()))
    {
      hide Prune, ArmMissing;
      ArmMissingLost(View(), lost);
      ArmNewlyLost();
      PruneTimers();
      effectDue := false;
    }
  }
}
