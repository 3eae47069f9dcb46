/** Polls answered out of order: what is lost, and that it stays lost. */
module TelemetryRaces {
  import opened Wrappers
  import opened TelemetryPoints
  import opened TelemetryServer
  import opened TelemetryHistory
  import opened TelemetryEdge
  import P = TelemetryPolls

  // --- A bucket that is never asked for ---

  ghost predicate Past(ps: seq<Point>, b: nat) {
    Sorted(ps) && (ps == [] || Last(ps).at > b)
  }

  ghost predicate AllPast(gpus: seq<Series>, b: nat) {
    forall i | 0 <= i < |gpus| :: Past(gpus[i].points, b)
  }

  /** Bucket `b` of the system series is not held, and nothing asks for it: every series that
      is held has gone past it, and every request in flight starts after it. */
  ghost predicate Hole(st: P.PollState, b: nat) {
    && st.held.Some? && st.held.value.sessionId == P.SESSION
    && Past(st.held.value.system, b) && st.held.value.system != [] && !HasAt(st.held.value.system, b)
    && AllPast(st.held.value.gpus, b)
    && forall id | id in st.requests :: st.requests[id].since.Some? && st.requests[id].since.value > b
  }

  lemma {:induction false} OldestPast(gpus: seq<Series>, b: nat)
    requires AllPast(gpus, b)
    ensures OldestLast(gpus).Some? ==> OldestLast(gpus).value > b
  {
    if gpus != [] {
      OldestPast(gpus[..|gpus| - 1], b);
    }
  }

  lemma {:induction false} PointsPast(gpus: seq<Series>, b: nat, key: string)
    requires AllPast(gpus, b)
    ensures Past(PointsOf(gpus, key), b)
  {
    if gpus != [] {
      PointsPast(gpus[..|gpus| - 1], b, key);
    }
  }

  lemma MergePast(previous: seq<Point>, next: seq<Point>, cutoff: int, b: nat)
    requires Past(previous, b) && Sorted(next) && forall x | x in next :: x.at > b
    ensures Past(MergePoints(previous, next, cutoff), b)
  {
    if next == [] {
      FromHas(previous, cutoff);
      if From(previous, cutoff) != [] {
        FromLast(previous, cutoff);
      }
    } else {
      MergeSorted(previous, next, cutoff);
      assert Last(next) in next;
    }
  }

  ghost predicate AllAfter(gpus: seq<Series>, b: nat) {
    forall i | 0 <= i < |gpus| :: Sorted(gpus[i].points) && forall x | x in gpus[i].points :: x.at > b
  }

  lemma {:induction false} MergeGpusPast(previous: seq<Series>, next: seq<Series>, cutoff: int, b: nat)
    requires AllPast(previous, b) && AllAfter(next, b)
    ensures AllPast(MergeGpus(previous, next, cutoff), b)
  {
    if next != [] {
      var n := |next| - 1;
      MergeGpusPast(previous, next[..n], cutoff, b);
      PointsPast(previous, b, next[n].key);
      hide MergePoints, Past, PointsOf, Sorted;
      MergePast(PointsOf(previous, next[n].key), next[n].points, cutoff, b);
    }
  }

  lemma {:induction false} FromGpusAfter(gpus: seq<Series>, since: int, b: nat)
    requires since > b && forall i | 0 <= i < |gpus| :: Sorted(gpus[i].points)
    ensures AllAfter(FromGpus(gpus, since), b)
  {
    if gpus != [] {
      var n := |gpus| - 1;
      FromGpusAfter(gpus[..n], since, b);
      FromHas(gpus[n].points, since);
      hide From, Sorted;
    }
  }

  lemma {:induction false} NothingSince(gpus: seq<Series>, since: int)
    requires forall i | 0 <= i < |gpus| :: From(gpus[i].points, since) == []
    ensures NewestOf(FromGpus(gpus, since)) == 0
  {
    if gpus != [] {
      var n := |gpus| - 1;
      FromGpusLength(gpus[..n], since);
      NothingSince(gpus[..n], since);
      assert FromGpus(gpus, since)[..n] == FromGpus(gpus[..n], since);
    }
  }

  lemma GpusSorted(h: History, now: nat)
    requires Valid(h, now)
    ensures forall i | 0 <= i < |h.gpus| :: Sorted(h.gpus[i].points) && forall x | x in h.gpus[i].points :: x.at <= BucketStart(now)
  {
    forall i | 0 <= i < |h.gpus|
      ensures Sorted(h.gpus[i].points) && forall x | x in h.gpus[i].points :: x.at <= BucketStart(now)
    {
      PointsOfAt(h.gpus, i);
      assert SeriesOk(PointsOf(h.gpus, h.gpus[i].key), now);
    }
  }

  /** A delta from after `b` leaves the hole, even one with nothing in it. */
  lemma MergeLeavesHole(held: Payload, h: History, now: nat, since: nat, b: nat)
    requires Valid(h, now) && since > b
    requires Past(held.system, b) && held.system != [] && !HasAt(held.system, b) && AllPast(held.gpus, b)
    ensures var merged := MergeHistory(Some(held), Snapshot(held.sessionId, h, Some(since)));
      && merged.sessionId == held.sessionId
      && Past(merged.system, b) && merged.system != [] && !HasAt(merged.system, b) && AllPast(merged.gpus, b)
  {
    hide MergeHistory, Snapshot, FromGpus, MergeGpus, From, PointsOf, Newest, Past, AllPast, AllAfter, HasAt, MergePoints;
    var cutoff := Newest(Snapshot(held.sessionId, h, Some(since))) - WINDOW;
    SnapshotMerged(held, h, Some(since));
    GpusSorted(h, now);
    FromGpusAfter(h.gpus, since, b);
    FromHas(h.system, since);
    if From(h.system, since) == [] {
      LateDelta(held.sessionId, h, now, since);
    }
    hide Valid;
    MergeGpusPast(held.gpus, FromGpus(h.gpus, since), cutoff, b);
    MergePast(held.system, From(h.system, since), cutoff, b);
    SystemHole(held.system, From(h.system, since), cutoff, b);
  }

  lemma SystemHole(previous: seq<Point>, next: seq<Point>, cutoff: int, b: nat)
    requires previous != [] && !HasAt(previous, b) && (forall x | x in next :: x.at > b) && (next == [] ==> cutoff <= 0)
    ensures MergePoints(previous, next, cutoff) != [] && !HasAt(MergePoints(previous, next, cutoff), b)
  {
    if next == [] {
      FromHas(previous, cutoff);
      assert previous[0] in From(previous, cutoff);
    } else {
      BetweenHas(previous, cutoff, next[0].at);
    }
  }

  lemma {:induction false} NoneFrom(ps: seq<Point>, since: int)
    requires forall x | x in ps :: x.at < since
    ensures From(ps, since) == []
  {
    if ps != [] {
      NoneFrom(ps[1..], since);
    }
  }

  /** A delta that starts after the newest bucket is empty. */
  lemma LateDelta(sessionId: string, h: History, now: nat, since: nat)
    requires Valid(h, now) && From(h.system, since) == []
    ensures Newest(Snapshot(sessionId, h, Some(since))) == 0
  {
    FromHas(h.system, since);
    assert Last(h.system) in h.system && Last(h.system) !in From(h.system, since);
    assert BucketStart(now) < since;
    GpusSorted(h, now);
    hide Valid, From, FromGpus;
    forall i | 0 <= i < |h.gpus| ensures From(h.gpus[i].points, since) == [] {
      NoneFrom(h.gpus[i].points, since);
    }
    NothingSince(h.gpus, since);
  }

  lemma HoleStep(st: P.PollState, e: P.PollEvent, b: nat)
    requires P.ServerOk(st) && Hole(st, b) && P.Enabled(st, e)
    ensures Hole(P.Next(st, e), b)
  {
    match e
    case Recorded(now, s) => hide P.Newer;
    case Removed =>
    case Served(id) =>
    case Issued(id) =>
      OldestPast(st.held.value.gpus, b);
      hide OldestLast, Past, AllPast;
    case Delivered(id) =>
      if P.Merges(st, e) {
        var r := st.requests[id];
        var v := st.versions[r.answer.version];
        assert P.VersionOk(v);
        hide MergeHistory, Snapshot, Past, AllPast, HasAt, Valid, StartsAt, P.VersionsOk;
        MergeLeavesHole(st.held.value, v.history, v.now, r.since.value, b);
      }
  }

  lemma {:induction false} RunServer(states: seq<P.PollState>, events: seq<P.PollEvent>, n: nat)
    requires P.IsPollRun(states, events) && n <= |events|
    ensures P.ServerOk(states[n])
  {
    hide P.Next, P.Enabled;
    if n > 0 {
      RunServer(states, events, n - 1);
      hide P.ServerOk;
      P.ServerStep(states[n - 1], events[n - 1]);
    }
  }

  /** Whatever happens later, replies in order or not, the bucket is never held again; and as
      long as the server has it, what is held does not agree. */
  lemma {:induction false} HoleStays(states: seq<P.PollState>, events: seq<P.PollEvent>, m: nat, n: nat, b: nat)
    requires P.IsPollRun(states, events) && m <= n <= |events| && Hole(states[m], b)
    ensures Hole(states[n], b)
    ensures forall v | v in states[n].versions && HasAt(v.history.system, b) ::
      !Agree(states[n].held.value, v.history, BucketStart(v.now))
  {
    hide P.Next, P.Enabled, P.ServerOk;
    if m < n {
      HoleStays(states, events, m, n - 1, b);
      RunServer(states, events, n - 1);
      HoleStep(states[n - 1], events[n - 1], b);
    }
    forall v | v in states[n].versions && HasAt(v.history.system, b)
      ensures !Agree(states[n].held.value, v.history, BucketStart(v.now))
    {
      var x :| x in v.history.system && x.at == b;
      MissingDisagrees(states[n].held.value.system, v.history.system, x, BucketStart(v.now));
    }
  }

  // --- A run that makes one ---

  /** Readings a, b, c, d at seconds 0, 5, 10 and 15. Poll 0 is answered after a but its
      reply is overtaken: poll 1, sent later, is answered after c and delivered first, and
      poll 2 has gone out for what follows c when the old reply arrives. */
  const EVENTS := [
    P.Recorded(0, Sample(1, [])), P.Issued(0), P.Served(0),
    P.Recorded(5, Sample(2, [])), P.Recorded(10, Sample(3, [])), P.Issued(1), P.Served(1), P.Delivered(1),
    P.Issued(2), P.Delivered(0),
    P.Recorded(15, Sample(4, [])), P.Served(2), P.Delivered(2)]

  const A := Point(0, [1])
  const B := Point(5, [2])
  const C := Point(10, [3])
  const D := Point(15, [4])

  function Of(points: seq<Point>, now: nat): P.Version {
    P.Version(History(points, []), now, 0, 0)
  }

  function Held(points: seq<Point>): Option<Payload> {
    Some(Payload(P.SESSION, WINDOW, points, []))
  }

  const WAITING := P.Request(None, P.Waiting)
  const FIRST := P.Request(None, P.Answered(0))
  const SECOND := P.Request(None, P.Answered(2))
  const THIRD := P.Request(Some(10), P.Waiting)

  const V1 := [Of([A], 0)]
  const V2 := V1 + [Of([A, B], 5)]
  const V3 := V2 + [Of([A, B, C], 10)]
  const V4 := V3 + [Of([A, B, C, D], 15)]

  function States(): seq<P.PollState> {
    [P.START,
     P.PollState(V1, true, 0, map[], None, None),
     P.PollState(V1, true, 0, map[0 := WAITING], None, None),
     P.PollState(V1, true, 0, map[0 := FIRST], None, None),
     P.PollState(V2, true, 0, map[0 := FIRST], None, None),
     P.PollState(V3, true, 0, map[0 := FIRST], None, None),
     P.PollState(V3, true, 0, map[0 := FIRST, 1 := WAITING], None, None),
     P.PollState(V3, true, 0, map[0 := FIRST, 1 := SECOND], None, None),
     P.PollState(V3, true, 0, map[0 := FIRST], Held([A, B, C]), Some(2)),
     P.PollState(V3, true, 0, map[0 := FIRST, 2 := THIRD], Held([A, B, C]), Some(2)),
     P.PollState(V3, true, 0, map[2 := THIRD], Held([A]), Some(0)),
     P.PollState(V4, true, 0, map[2 := THIRD], Held([A]), Some(0)),
     P.PollState(V4, true, 0, map[2 := THIRD.(answer := P.Answered(3))], Held([A]), Some(0)),
     P.PollState(V4, true, 0, map[], Held([A, C, D]), Some(3))]
  }

  lemma Records()
    ensures Record(EMPTY, 0, Sample(1, [])) == History([A], [])
    ensures Record(History([A], []), 5, Sample(2, [])) == History([A, B], [])
    ensures Record(History([A, B], []), 10, Sample(3, [])) == History([A, B, C], [])
    ensures Record(History([A, B, C], []), 15, Sample(4, [])) == History([A, B, C, D], [])
  {
    assert [] + [A] == [A] && [A] + [B] == [A, B] && [A, B] + [C] == [A, B, C] && [A, B, C] + [D] == [A, B, C, D];
    assert BucketStart(0) == 0 && BucketStart(5) == 5 && BucketStart(10) == 10 && BucketStart(15) == 15;
  }

  lemma RecordSteps()
    ensures P.Next(States()[0], EVENTS[0]) == States()[1]
    ensures P.Next(States()[3], EVENTS[3]) == States()[4]
    ensures P.Next(States()[4], EVENTS[4]) == States()[5]
    ensures P.Next(States()[10], EVENTS[10]) == States()[11]
  {
    Records();
    hide Record;
    assert BucketStart(0) == 0;
    assert [] + [Of([A], 0)] == V1;
  }

  lemma AskSteps()
    ensures P.Next(States()[1], EVENTS[1]) == States()[2]
    ensures P.Next(States()[2], EVENTS[2]) == States()[3]
    ensures P.Next(States()[5], EVENTS[5]) == States()[6]
  {
    hide Record, MergeHistory, Snapshot;
  }

  lemma LaterAskSteps()
    ensures P.Next(States()[6], EVENTS[6]) == States()[7]
    ensures P.Next(States()[8], EVENTS[8]) == States()[9]
    ensures P.Next(States()[11], EVENTS[11]) == States()[12]
  {
    hide Record, MergeHistory, Snapshot;
  }

  lemma {:induction false} BetweenNone(ps: seq<Point>, lo: int, hi: int)
    requires forall i | 0 <= i < |ps| :: hi <= ps[i].at
    ensures Between(ps, lo, hi) == []
  {
    if ps != [] {
      BetweenNone(ps[1..], lo, hi);
    }
  }

  lemma Replies()
    ensures MergeHistory(None, Snapshot(P.SESSION, History([A, B, C], []), None)) == Held([A, B, C]).value
    ensures MergeHistory(Held([A, B, C]), Snapshot(P.SESSION, History([A], []), None)) == Held([A]).value
  {
    FromAll([A, B, C]);
    FromAll([A]);
    BetweenNone([A, B, C], 0 - WINDOW, 0);
    hide From, Between;
    assert [] + [A] == [A];
  }

  lemma LastReply()
    ensures MergeHistory(Held([A]), Snapshot(P.SESSION, History([A, B, C, D], []), Some(10))) == Held([A, C, D]).value
  {
    FromTen();
    assert Between([A], 15 - WINDOW, 10) == [A] by {
      assert [A][1..] == [];
    }
    hide From, Between;
    assert [A] + [C, D] == [A, C, D];
  }

  lemma FromTen()
    ensures From([A, B, C, D], 10) == [C, D]
  {
    assert [A, B, C, D][1..] == [B, C, D] && [B, C, D][1..] == [C, D] && [C, D][1..] == [D] && [D][1..] == [];
    assert From([D], 10) == [D] + From([], 10) == [D];
    assert From([C, D], 10) == [C] + From([D], 10) == [C, D];
    assert From([B, C, D], 10) == From([C, D], 10);
  }

  lemma ReplySteps()
    ensures P.Next(States()[7], EVENTS[7]) == States()[8]
    ensures P.Next(States()[9], EVENTS[9]) == States()[10]
    ensures P.Next(States()[12], EVENTS[12]) == States()[13]
  {
    Replies();
    LastReply();
    hide MergeHistory, Snapshot;
  }

  lemma AllEnabled()
    ensures forall i | 0 <= i < |EVENTS| :: P.Enabled(States()[i], EVENTS[i])
  {
  }

  /** A run of the hook against the server, each step enabled, with one reply out of order. It
      ends without bucket b, which the server has; and b is never held again. The request in
      flight when the old reply arrived asks from past what is then held, which is just what
      `SinceIsExact` says goes wrong. */
  lemma OutOfOrderLeavesHole()
    ensures P.IsPollRun(States(), EVENTS)
    ensures forall i | 0 <= i < |EVENTS| :: P.InOrder(States()[i], EVENTS[i]) <==> i != 9
    ensures States()[13].held.value.system == [A, C, D] && States()[13].versions[3].history.system == [A, B, C, D]
    ensures Hole(States()[13], B.at)
    ensures !RightForEveryRecord(States()[10].held.value, States()[10].versions[0].history, 0, States()[10].requests[2].since.value)
  {
    IsARun();
    OneOutOfOrder();
    LeavesHole();
    TooLate();
    hide P.IsPollRun, P.InOrder, Hole, RightForEveryRecord;
  }

  lemma IsARun()
    ensures P.IsPollRun(States(), EVENTS)
  {
    AllEnabled();
    RecordSteps();
    AskSteps();
    LaterAskSteps();
    ReplySteps();
    hide P.Next, P.Enabled;
    assert |EVENTS| == 13 && |States()| == 14;
  }

  lemma OneOutOfOrder()
    ensures forall i | 0 <= i < |EVENTS| :: P.Enabled(States()[i], EVENTS[i]) && (P.InOrder(States()[i], EVENTS[i]) <==> i != 9)
  {
  }

  lemma LeavesHole()
    ensures Hole(States()[13], B.at)
  {
  }

  lemma TooLate()
    ensures !RightForEveryRecord(Held([A]).value, History([A], []), 0, 10)
  {
    Records();
    FirstRecord(0, Sample(1, []));
    var h := History([A], []);
    FullFetchAgrees(P.SESSION, h, 0);
    FromAll([A]);
    hide Record;
    assert Snapshot(P.SESSION, h, None) == Held([A]).value;
    hide Valid, Agree, Snapshot, RightForEveryRecord;
    SinceIsExact(Held([A]).value, h, 0, 10);
  }

  /** So on every run that goes on from there the bucket stays lost. */
  lemma HoleIsForGood(states: seq<P.PollState>, events: seq<P.PollEvent>, n: nat)
    requires P.IsPollRun(states, events) && |EVENTS| <= n <= |events|
    requires events[..|EVENTS|] == EVENTS && states[|EVENTS|] == States()[13]
    ensures states[n].held.Some? && !HasAt(states[n].held.value.system, B.at)
    ensures forall v | v in states[n].versions && HasAt(v.history.system, B.at) ::
      !Agree(states[n].held.value, v.history, BucketStart(v.now))
  {
    OutOfOrderLeavesHole();
    HoleStays(states, events, |EVENTS|, n, B.at);
  }
}
