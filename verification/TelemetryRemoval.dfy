/** A history removed and begun anew while a chart is open
    (`src-tauri/src/ssh/terminal.rs:1012`): a run after which the chart holds more than a
    fetch would give. */
module TelemetryRemoval {
  import opened Wrappers
  import opened TelemetryPoints
  import opened TelemetryServer
  import opened TelemetryHistory
  import P = TelemetryPolls

  const A := Point(0, [1])
  const B := Point(5, [2])

  /** A reading is polled; the session reconnects, which removes its history; five seconds
      later there is a new one with the next reading, which the second poll fetches. */
  function EventAt(i: nat): P.PollEvent {
    match i
    case 0 => P.Recorded(0, Sample(1, []))
    case 1 => P.Issued(0)
    case 2 => P.Served(0)
    case 3 => P.Delivered(0)
    case 4 => P.Removed
    case 5 => P.Recorded(5, Sample(2, []))
    case 6 => P.Issued(1)
    case 7 => P.Served(1)
    case _ => P.Delivered(1)
  }

  const V1 := P.Version(History([A], []), 0, 0, 0)
  const V2 := P.Version(History([B], []), 5, 1, 5)

  function Held(points: seq<Point>): Option<Payload> {
    Some(Payload(P.SESSION, WINDOW, points, []))
  }

  function StateAt(i: nat): P.PollState {
    match i
    case 0 => P.START
    case 1 => P.PollState([V1], true, 0, map[], None, None)
    case 2 => P.PollState([V1], true, 0, map[0 := P.Request(None, P.Waiting)], None, None)
    case 3 => P.PollState([V1], true, 0, map[0 := P.Request(None, P.Answered(0))], None, None)
    case 4 => P.PollState([V1], true, 0, map[], Held([A]), Some(0))
    case 5 => P.PollState([V1], false, 1, map[], Held([A]), Some(0))
    case 6 => P.PollState([V1, V2], true, 1, map[], Held([A]), Some(0))
    case 7 => P.PollState([V1, V2], true, 1, map[1 := P.Request(Some(0), P.Waiting)], Held([A]), Some(0))
    case 8 => P.PollState([V1, V2], true, 1, map[1 := P.Request(Some(0), P.Answered(1))], Held([A]), Some(0))
    case _ => P.PollState([V1, V2], true, 1, map[], Held([A, B]), Some(1))
  }

  lemma Records()
    ensures Record(EMPTY, 0, Sample(1, [])) == History([A], []) && BucketStart(0) == 0
    ensures Record(EMPTY, 5, Sample(2, [])) == History([B], []) && BucketStart(5) == 5
  {
    assert [] + [A] == [A] && [] + [B] == [B];
  }

  lemma Replies()
    ensures MergeHistory(None, Snapshot(P.SESSION, History([A], []), None)) == Held([A]).value
    ensures MergeHistory(Held([A]), Snapshot(P.SESSION, History([B], []), Some(0))) == Held([A, B]).value
    ensures LastCapturedAt(None) == None && LastCapturedAt(Held([A])) == Some(0)
  {
    FromAll([A]);
    FromAll([B]);
    assert Between([A], 5 - WINDOW, 5) == [A] by {
      assert [A][1..] == [];
    }
    hide From, Between;
    assert [A] + [B] == [A, B];
  }

  lemma RecordedStep(i: nat)
    requires i in {0, 5}
    ensures P.Enabled(StateAt(i), EventAt(i)) && P.Next(StateAt(i), EventAt(i)) == StateAt(i + 1)
    ensures P.InOrder(StateAt(i), EventAt(i))
  {
    Records();
    hide Record, BucketStart;
    assert [V1] + [V2] == [V1, V2] && [] + [V1] == [V1];
  }

  lemma PolledStep(i: nat)
    requires i in {1, 2, 3, 4, 6, 7, 8}
    ensures P.Enabled(StateAt(i), EventAt(i)) && P.Next(StateAt(i), EventAt(i)) == StateAt(i + 1)
    ensures P.InOrder(StateAt(i), EventAt(i))
  {
    Replies();
    hide MergeHistory, Snapshot, LastCapturedAt;
    var st := StateAt(i);
    if i in {3, 8} {
      var id := EventAt(i).id;
      assert st.requests - {id} == map[];
    } else if i in {2, 7} {
      var id := EventAt(i).id;
      assert st.requests[id := StateAt(i + 1).requests[id]] == StateAt(i + 1).requests;
    }
  }

  /** Every reply is in order, and what is held at the end is not what the server has: the
      bucket of the old history is still there. It is what `AgreementAcrossRemoval` asks
      after, a bucket inside the window that is older than the first the new history has. */
  lemma RemovalLeavesOldBuckets()
    ensures var states, events := seq(10, i requires 0 <= i => StateAt(i)), seq(9, i requires 0 <= i => EventAt(i));
      && P.IsPollRun(states, events) && P.InOrderUpTo(states, events, 9)
      && states[9].held.value.system == [A, B] && states[9].versions[1].history.system == [B]
      && !NothingLeftOver(states[8].held.value, V2.history, BucketStart(V2.now))
      && !Agree(states[9].held.value, V2.history, BucketStart(V2.now))
  {
    var states, events := seq(10, i requires 0 <= i => StateAt(i)), seq(9, i requires 0 <= i => EventAt(i));
    hide P.Next, P.Enabled, P.InOrder;
    forall i | 0 <= i < 9
      ensures P.Enabled(states[i], events[i]) && P.Next(states[i], events[i]) == states[i + 1] && P.InOrder(states[i], events[i])
    {
      if i in {0, 5} {
        RecordedStep(i);
      } else {
        PolledStep(i);
      }
    }
    assert A in [A, B] && A in [A] && A !in [B];
    Records();
    hide Agree, NothingLeftOver;
    TwoHeld();
  }

  lemma TwoHeld()
    ensures !NothingLeftOver(Held([A]).value, V2.history, 5)
    ensures !Agree(Held([A, B]).value, V2.history, 5)
  {
    assert A in [A, B] && A in [A] && A !in [B];
  }
}
