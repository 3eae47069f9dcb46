/** The window's cached history (`src/hooks/useTelemetryHistory.ts`): folding deltas
    into what is held refines fetching the whole history each time. */
module TelemetryHistory {
  import opened Wrappers
  import opened TelemetryPoints
  import opened TelemetryServer

  function LastAt(ps: seq<Point>): nat {
    if ps == [] then 0 else Last(ps).at
  }

  function Max(a: nat, b: nat): nat {
    if a < b then b else a
  }

  function NewestOf(gpus: seq<Series>): nat {
    if gpus == [] then 0 else Max(NewestOf(gpus[..|gpus| - 1]), LastAt(gpus[|gpus| - 1].points))
  }

  function Newest(p: Payload): nat {
    Max(LastAt(p.system), NewestOf(p.gpus))
  }

  function MergeGpus(previous: seq<Series>, next: seq<Series>, cutoff: int): seq<Series> {
    if next == [] then []
    else
      var n := |next| - 1;
      MergeGpus(previous, next[..n], cutoff)
      + [Series(next[n].key, MergePoints(PointsOf(previous, next[n].key), next[n].points, cutoff))]
  }

  function MergeHistory(previous: Option<Payload>, delta: Payload): Payload {
    if previous.None? || previous.value.sessionId != delta.sessionId then delta
    else
      var cutoff := Newest(delta) - delta.windowSecs;
      delta.(system := MergePoints(previous.value.system, delta.system, cutoff),
             gpus := MergeGpus(previous.value.gpus, delta.gpus, cutoff))
  }

  function MinOption(a: Option<nat>, b: Option<nat>): Option<nat> {
    if a.None? then b
    else if b.None? then a
    else if a.value < b.value then a else b
  }

  function LastTime(ps: seq<Point>): Option<nat> {
    if ps == [] then None else Some(Last(ps).at)
  }

  function OldestLast(gpus: seq<Series>): Option<nat> {
    if gpus == [] then None
    else MinOption(OldestLast(gpus[..|gpus| - 1]), LastTime(gpus[|gpus| - 1].points))
  }

  /** Where the next delta has to start: the oldest of the series' newest buckets. */
  function LastCapturedAt(held: Option<Payload>): Option<nat> {
    if held.None? then None else MinOption(LastTime(held.value.system), OldestLast(held.value.gpus))
  }

  function AllSeries(p: Payload): seq<seq<Point>> {
    [p.system] + seq(|p.gpus|, i requires 0 <= i < |p.gpus| => p.gpus[i].points)
  }

  /** The least of the last times of the series that have points, if any has. */
  ghost predicate IsLeastLast(since: Option<nat>, series: seq<seq<Point>>) {
    match since
    case None => forall i | 0 <= i < |series| :: series[i] == []
    case Some(time) =>
      && (exists i | 0 <= i < |series| :: series[i] != [] && Last(series[i]).at == time)
      && forall i | 0 <= i < |series| && series[i] != [] :: time <= Last(series[i]).at
  }

  lemma LeastLastGrows(since: Option<nat>, series: seq<seq<Point>>, ps: seq<Point>)
    requires IsLeastLast(since, series)
    ensures IsLeastLast(MinOption(since, LastTime(ps)), series + [ps])
  {
    var longer := series + [ps];
    assert longer[|series|] == ps;
    if since.Some? {
      var i :| 0 <= i < |series| && series[i] != [] && Last(series[i]).at == since.value;
      assert longer[i] == series[i];
    }
  }

  /** The hook's own state: what it holds, reassigned by every reply. */
  class Poller {
    var held: Option<Payload>

    constructor ()
      ensures held == None
    {
      held := None;
    }

    /** Where the next delta starts: at the least of the series' last times, so that none is
        asked for past its own end. Series without points are passed over. */
    method NextSince() returns (since: Option<nat>)
      ensures since == LastCapturedAt(held)
      ensures held.None? ==> since.None?
      ensures held.Some? ==> IsLeastLast(since, AllSeries(held.value))
    {
      if held.None? {
        return None;
      }
      var history := held.value;
      since := LastTime(history.system);
      assert AllSeries(history)[..1] == [history.system];
      assert [history.system][0] == history.system;
      for i := 0 to |history.gpus|
        invariant since == MinOption(LastTime(history.system), OldestLast(history.gpus[..i]))
        invariant IsLeastLast(since, AllSeries(history)[..i + 1])
      {
        assert history.gpus[..i + 1][..i] == history.gpus[..i];
        LeastLastGrows(since, AllSeries(history)[..i + 1], history.gpus[i].points);
        assert AllSeries(history)[..i + 2] == AllSeries(history)[..i + 1] + [history.gpus[i].points];
        since := MinOption(since, LastTime(history.gpus[i].points));
      }
      assert history.gpus[..|history.gpus|] == history.gpus;
      assert AllSeries(history)[..|history.gpus| + 1] == AllSeries(history);
    }

    /** A reply; an absent one leaves what is held. */
    method Receive(delta: Option<Payload>)
      modifies this
      ensures held == if delta.None? then old(held) else Some(MergeHistory(old(held), delta.value))
    {
      if delta.None? {
        return;
      }
      held := Some(MergeHistory(held, delta.value));
    }
  }

  // --- What it means to agree with the server ---

  ghost predicate Agree(m: Payload, h: History, t: nat) {
    && SeriesAgree(m.system, h.system, t)
    && (forall key :: SeriesAgree(PointsOf(m.gpus, key), PointsOf(h.gpus, key), t))
    && (forall key :: HasKey(m.gpus, key) <==> HasKey(h.gpus, key))
  }

  /** The edge does differ in practice: the server trims by the clock and the client by
      the newest bucket, which is up to one bucket older. */
  lemma EdgeDiffers()
    ensures var first := Record(EMPTY, 0, Sample(1, []));
      var later := Record(first, 3601, Sample(2, []));
      var held := Snapshot("s", first, None);
      var merged := MergeHistory(Some(held), Snapshot("s", later, LastCapturedAt(Some(held))));
      && later.system == [Point(3600, [2])]
      && merged.system == [Point(0, [1]), Point(3600, [2])]
      && From(merged.system, 3600 - WINDOW) != From(later.system, 3600 - WINDOW)
  {
    var first := Record(EMPTY, 0, Sample(1, []));
    assert first == History([Point(0, [1])], []);
    var later := Record(first, 3601, Sample(2, []));
    assert AddReading(first.system, 3601, 2) == [Point(0, [1]), Point(3600, [2])];
    assert DropOld([Point(0, [1]), Point(3600, [2])], 1) == [Point(3600, [2])];
    assert later == History([Point(3600, [2])], []);
    var held := Snapshot("s", first, None);
    assert held == Payload("s", WINDOW, [Point(0, [1])], []);
    var delta := Snapshot("s", later, LastCapturedAt(Some(held)));
    assert delta == Payload("s", WINDOW, [Point(3600, [2])], []);
    assert Between([Point(0, [1])], 0, 3600) == [Point(0, [1])];
  }

  // --- One merge ---

  lemma {:induction false} MergeGpusPoints(previous: seq<Series>, next: seq<Series>, cutoff: int, key: string)
    ensures HasKey(MergeGpus(previous, next, cutoff), key) <==> HasKey(next, key)
    ensures PointsOf(MergeGpus(previous, next, cutoff), key) ==
            if HasKey(next, key) then MergePoints(PointsOf(previous, key), PointsOf(next, key), cutoff) else []
  {
    if next != [] {
      var n := |next| - 1;
      var rest := next[..n];
      var merged := MergeGpus(previous, rest, cutoff);
      var s := Series(next[n].key, MergePoints(PointsOf(previous, next[n].key), next[n].points, cutoff));
      assert MergeGpus(previous, next, cutoff) == merged + [s];
      assert next == rest + [next[n]];
      hide MergePoints, PointsOf, HasKey, MergeGpus;
      MergeGpusPoints(previous, rest, cutoff, key);
      AppendSeries(merged, s, key);
      AppendSeries(rest, next[n], key);
    }
  }

  lemma {:induction false} MergeGpusLength(previous: seq<Series>, next: seq<Series>, cutoff: int)
    ensures |MergeGpus(previous, next, cutoff)| == |next|
    ensures forall i | 0 <= i < |next| :: MergeGpus(previous, next, cutoff)[i].key == next[i].key
  {
    if next != [] {
      MergeGpusLength(previous, next[..|next| - 1], cutoff);
    }
  }

  /** No series of a valid history reaches past its newest bucket, so the newest time in
      a delta that includes that bucket is the server's. */
  lemma NewestOfBound(h: History, now: nat, since: int)
    requires Valid(h, now)
    ensures NewestOf(FromGpus(h.gpus, since)) <= BucketStart(now)
  {
    forall i | 0 <= i < |h.gpus| ensures LastAt(From(h.gpus[i].points, since)) <= BucketStart(now) {
      PointsOfAt(h.gpus, i);
      LastAtBound(h.gpus[i].points, now, since);
    }
    hide Valid, LastAt, From, FromGpus;
    NewestOfEach(h.gpus, since, BucketStart(now));
  }

  lemma {:induction false} NewestOfEach(gpus: seq<Series>, since: int, bound: nat)
    requires forall i | 0 <= i < |gpus| :: LastAt(From(gpus[i].points, since)) <= bound
    ensures NewestOf(FromGpus(gpus, since)) <= bound
  {
    if gpus != [] {
      var n := |gpus| - 1;
      hide LastAt, From;
      NewestOfEach(gpus[..n], since, bound);
      NewestOfSnoc(FromGpus(gpus[..n], since), Series(gpus[n].key, From(gpus[n].points, since)));
    }
  }

  lemma NewestOfSnoc(gpus: seq<Series>, last: Series)
    ensures NewestOf(gpus + [last]) == Max(NewestOf(gpus), LastAt(last.points))
  {
    assert (gpus + [last])[..|gpus|] == gpus;
  }

  lemma LastAtBound(ps: seq<Point>, now: nat, since: int)
    requires SeriesOk(ps, now)
    ensures LastAt(From(ps, since)) <= BucketStart(now)
  {
    FromHas(ps, since);
    assert From(ps, since) == [] || Last(From(ps, since)) in ps;
  }

  lemma {:induction false} PointsOfAt(gpus: seq<Series>, i: nat)
    requires DistinctKeys(gpus) && i < |gpus|
    ensures PointsOf(gpus, gpus[i].key) == gpus[i].points
  {
    if i < |gpus| - 1 {
      PointsOfAt(gpus[..|gpus| - 1], i);
    }
  }

  lemma DeltaNewest(sessionId: string, h: History, now: nat, since: Option<nat>)
    requires Valid(h, now) && (since.Some? ==> since.value <= BucketStart(now))
    ensures Newest(Snapshot(sessionId, h, since)) == BucketStart(now)
  {
    var from := if since.Some? then since.value else 0;
    FromHas(h.system, from);
    assert Last(h.system) in From(h.system, from);
    FromLast(h.system, from);
    NewestOfBound(h, now, from);
  }

  /** The merge theorem: a cache that agreed with an earlier state of the server agrees
      with a later one once its delta is merged, provided the delta starts no later
      than the newest bucket of the earlier state. */
  lemma MergeAgrees(m: Payload, h: History, before: nat, k: History, now: nat, since: Option<nat>)
    requires Valid(h, before) && Valid(k, now) && Later(h, k, BucketStart(before), BucketStart(now))
    requires Agree(m, h, BucketStart(before))
    requires FromOf(since) <= BucketStart(before)
    ensures Agree(MergeHistory(Some(m), Snapshot(m.sessionId, k, since)), k, BucketStart(now))
  {
    hide From, FromGpus, Between, MergePoints, MergeGpus, PointsOf, HasKey, SeriesAgree, SeriesLater, SeriesKept, Recording;
    LaterOrder(h, k, BucketStart(before), BucketStart(now));
    DeltaNewest(m.sessionId, k, now, since);
    MergeSeries(m.system, h.system, k.system, BucketStart(before), BucketStart(now), FromOf(since));
    MergedGpus(m, k, now, since);
    var gpus := MergedGpusOf(m, k, now, since);
    forall key
      ensures SeriesAgree(PointsOf(gpus, key), PointsOf(k.gpus, key), BucketStart(now))
      ensures HasKey(gpus, key) <==> HasKey(k.gpus, key)
    {
      MergeKeyAgrees(m, h, before, k, now, since, key);
    }
  }

  function FromOf(since: Option<nat>): nat {
    if since.Some? then since.value else 0
  }

  /** The merged GPU series when the delta's newest time is `BucketStart(now)`. */
  function MergedGpusOf(m: Payload, k: History, now: nat, since: Option<nat>): seq<Series> {
    MergeGpus(m.gpus, Snapshot(m.sessionId, k, since).gpus, BucketStart(now) - WINDOW)
  }

  ghost predicate KeyAgrees(m: Payload, k: History, now: nat, since: Option<nat>, key: string) {
    var gpus := MergedGpusOf(m, k, now, since);
    && SeriesAgree(PointsOf(gpus, key), PointsOf(k.gpus, key), BucketStart(now))
    && (HasKey(gpus, key) <==> HasKey(k.gpus, key))
  }

  lemma MergedGpus(m: Payload, k: History, now: nat, since: Option<nat>)
    requires Newest(Snapshot(m.sessionId, k, since)) == BucketStart(now)
    ensures MergeHistory(Some(m), Snapshot(m.sessionId, k, since)).gpus == MergedGpusOf(m, k, now, since)
  {
  }

  /** Merging a snapshot, whatever its `since`, part by part. */
  lemma SnapshotMerged(m: Payload, k: History, since: Option<nat>)
    ensures var delta := Snapshot(m.sessionId, k, since);
      var merged, cutoff := MergeHistory(Some(m), delta), Newest(delta) - WINDOW;
      && merged.sessionId == m.sessionId
      && merged.system == MergePoints(m.system, From(k.system, FromOf(since)), cutoff)
      && merged.gpus == MergeGpus(m.gpus, FromGpus(k.gpus, FromOf(since)), cutoff)
  {
    hide From, FromGpus, MergePoints, MergeGpus, Newest;
  }

  lemma MergedSystem(m: Payload, k: History, now: nat, since: Option<nat>)
    requires Newest(Snapshot(m.sessionId, k, since)) == BucketStart(now)
    ensures MergeHistory(Some(m), Snapshot(m.sessionId, k, since)).system
         == MergePoints(m.system, From(k.system, FromOf(since)), BucketStart(now) - WINDOW)
  {
  }

  /** A delta from no later than the newest bucket, series by series. */
  lemma MergedParts(m: Payload, k: History, now: nat, since: Option<nat>)
    requires Valid(k, now) && FromOf(since) <= BucketStart(now)
    ensures var merged := MergeHistory(Some(m), Snapshot(m.sessionId, k, since));
      && merged.sessionId == m.sessionId
      && merged.system == MergePoints(m.system, From(k.system, FromOf(since)), BucketStart(now) - WINDOW)
      && merged.gpus == MergedGpusOf(m, k, now, since)
  {
    DeltaNewest(m.sessionId, k, now, since);
    MergedGpus(m, k, now, since);
    MergedSystem(m, k, now, since);
    hide Valid, From, FromGpus, MergePoints, MergeGpus, BucketStart, MergedGpusOf;
  }

  lemma MergedKey(m: Payload, k: History, now: nat, since: Option<nat>, key: string)
    ensures var gpus := MergedGpusOf(m, k, now, since);
      && (HasKey(gpus, key) <==> HasKey(k.gpus, key))
      && PointsOf(gpus, key) ==
         if HasKey(k.gpus, key)
         then MergePoints(PointsOf(m.gpus, key), From(PointsOf(k.gpus, key), FromOf(since)), BucketStart(now) - WINDOW)
         else []
  {
    MergeGpusPoints(m.gpus, FromGpus(k.gpus, FromOf(since)), BucketStart(now) - WINDOW, key);
    FromGpusPoints(k.gpus, FromOf(since), key);
  }

  lemma NoSeriesAgrees(t: nat)
    ensures SeriesAgree([], [], t)
  {
  }

  lemma MergeKeyAgrees(m: Payload, h: History, before: nat, k: History, now: nat, since: Option<nat>, key: string)
    requires SeriesOk(PointsOf(h.gpus, key), before) && SeriesOk(PointsOf(k.gpus, key), now)
    requires HasKey(k.gpus, key) <==> PointsOf(k.gpus, key) != []
    requires SeriesLater(PointsOf(h.gpus, key), PointsOf(k.gpus, key), BucketStart(before), BucketStart(now))
    requires SeriesAgree(PointsOf(m.gpus, key), PointsOf(h.gpus, key), BucketStart(before))
    requires FromOf(since) <= BucketStart(before)
    ensures KeyAgrees(m, k, now, since, key)
  {
    hide From, Between, MergePoints, PointsOf, HasKey, MergedGpusOf, SeriesAgree, SeriesLater, SeriesKept, Recording;
    NoSeriesAgrees(BucketStart(now));
    MergedKey(m, k, now, since, key);
    var mp, hp, kp := PointsOf(m.gpus, key), PointsOf(h.gpus, key), PointsOf(k.gpus, key);
    if HasKey(k.gpus, key) {
      MergeSeries(mp, hp, kp, BucketStart(before), BucketStart(now), FromOf(since));
    }
  }

  /** Nothing of another session is kept: whatever was held, a full fetch of a session then agrees
      with its history. */
  lemma OtherSessionReplaced(held: Option<Payload>, sessionId: string, h: History, now: nat)
    requires Valid(h, now) && (held.Some? ==> held.value.sessionId != sessionId)
    ensures Agree(MergeHistory(held, Snapshot(sessionId, h, None)), h, BucketStart(now))
  {
    FullFetchAgrees(sessionId, h, now);
    hide Agree, Valid;
  }

  /** A full fetch agrees with the state it was taken from. */
  lemma FullFetchAgrees(sessionId: string, h: History, now: nat)
    requires Valid(h, now)
    ensures Agree(Snapshot(sessionId, h, None), h, BucketStart(now))
  {
    FromAll(h.system);
    forall key
      ensures SeriesAgree(PointsOf(FromGpus(h.gpus, 0), key), PointsOf(h.gpus, key), BucketStart(now))
      ensures HasKey(FromGpus(h.gpus, 0), key) <==> HasKey(h.gpus, key)
    {
      FromGpusPoints(h.gpus, 0, key);
      FromAll(PointsOf(h.gpus, key));
      assert SeriesOk(PointsOf(h.gpus, key), now);
    }
  }

  lemma {:induction false} FromAll(ps: seq<Point>)
    ensures From(ps, 0) == ps
  {
    if ps != [] {
      FromAll(ps[1..]);
    }
  }

  /** The hook's own `since` always satisfies the proviso. */
  lemma OwnSinceIsEarly(m: Payload, h: History, now: nat)
    requires Valid(h, now) && (Agree(m, h, BucketStart(now)) || Carries(m, h, BucketStart(now)))
    ensures LastCapturedAt(Some(m)).Some? && LastCapturedAt(Some(m)).value <= BucketStart(now)
  {
  }

  // --- When the server's history starts anew ---

  /** What is held is the server's history with, perhaps, buckets of one it dropped before. */
  ghost predicate Carries(m: Payload, h: History, t: nat) {
    && SeriesCarries(m.system, h.system, t)
    && (forall key :: SeriesCarries(PointsOf(m.gpus, key), PointsOf(h.gpus, key), t))
    && (forall key :: HasKey(m.gpus, key) <==> HasKey(h.gpus, key))
  }

  ghost predicate NothingLeftOver(m: Payload, h: History, t: nat) {
    && NoLeftovers(m.system, h.system, t)
    && forall key :: NoLeftovers(PointsOf(m.gpus, key), PointsOf(h.gpus, key), t)
  }

  /** Then it agrees exactly when no series holds a bucket inside the window that is older
      than the first the server has for it. */
  lemma CarriesIsAgree(m: Payload, h: History, now: nat)
    requires Valid(h, now) && Carries(m, h, BucketStart(now))
    ensures Agree(m, h, BucketStart(now)) <==> NothingLeftOver(m, h, BucketStart(now))
  {
    var t := BucketStart(now);
    CarriesIsAgreement(m.system, h.system, t);
    forall key
      ensures SeriesAgree(PointsOf(m.gpus, key), PointsOf(h.gpus, key), t) <==> NoLeftovers(PointsOf(m.gpus, key), PointsOf(h.gpus, key), t)
    {
      assert SeriesOk(PointsOf(h.gpus, key), now);
      CarriesIsAgreement(PointsOf(m.gpus, key), PointsOf(h.gpus, key), t);
    }
    hide SeriesCarries, SeriesAgree, NoLeftovers, PointsOf, HasKey, Valid;
  }

  /** A new history: everything in it is from `start` on. */
  ghost predicate StartsAt(h: History, start: nat) {
    && (forall x | x in h.system :: x.at >= start)
    && forall key :: SeriesStartsAt(PointsOf(h.gpus, key), start)
  }

  ghost predicate SeriesStartsAt(ps: seq<Point>, start: nat) {
    forall x | x in ps :: x.at >= start
  }

  lemma FullFetchCarries(sessionId: string, h: History, now: nat)
    requires Valid(h, now)
    ensures Carries(Snapshot(sessionId, h, None), h, BucketStart(now))
  {
    FromAll(h.system);
    forall key
      ensures SeriesCarries(PointsOf(FromGpus(h.gpus, 0), key), PointsOf(h.gpus, key), BucketStart(now))
      ensures HasKey(FromGpus(h.gpus, 0), key) <==> HasKey(h.gpus, key)
    {
      FromGpusPoints(h.gpus, 0, key);
      FromAll(PointsOf(h.gpus, key));
      assert SeriesOk(PointsOf(h.gpus, key), now);
    }
  }

  /** A delta merged while the server's history goes on. */
  lemma MergeStillCarries(m: Payload, h: History, before: nat, k: History, now: nat, since: Option<nat>)
    requires Valid(h, before) && Valid(k, now) && Later(h, k, BucketStart(before), BucketStart(now))
    requires Carries(m, h, BucketStart(before)) && FromOf(since) <= BucketStart(before)
    ensures Carries(MergeHistory(Some(m), Snapshot(m.sessionId, k, since)), k, BucketStart(now))
  {
    hide From, FromGpus, Between, MergePoints, MergeGpus, PointsOf, HasKey, SeriesCarries, SeriesLater, SeriesKept, Recording;
    LaterOrder(h, k, BucketStart(before), BucketStart(now));
    DeltaNewest(m.sessionId, k, now, since);
    MergeCarries(m.system, h.system, k.system, BucketStart(before), BucketStart(now), FromOf(since));
    MergedGpus(m, k, now, since);
    var gpus := MergedGpusOf(m, k, now, since);
    forall key
      ensures SeriesCarries(PointsOf(gpus, key), PointsOf(k.gpus, key), BucketStart(now))
      ensures HasKey(gpus, key) <==> HasKey(k.gpus, key)
    {
      assert SeriesOk(PointsOf(h.gpus, key), before) && SeriesOk(PointsOf(k.gpus, key), now);
      MergedKey(m, k, now, since, key);
      var mp, hp, kp := PointsOf(m.gpus, key), PointsOf(h.gpus, key), PointsOf(k.gpus, key);
      if HasKey(k.gpus, key) {
        MergeCarries(mp, hp, kp, BucketStart(before), BucketStart(now), FromOf(since));
      } else {
        NoSeriesCarries(BucketStart(now));
      }
    }
  }

  /** A delta of a history that started anew since what is held was fetched. */
  lemma MergeAcrossCarries(m: Payload, k: History, now: nat, start: nat, since: Option<nat>)
    requires Valid(k, now) && StartsAt(k, start) && FromOf(since) <= start <= BucketStart(now)
    requires Sorted(m.system) && forall key :: Sorted(PointsOf(m.gpus, key))
    ensures Carries(MergeHistory(Some(m), Snapshot(m.sessionId, k, since)), k, BucketStart(now))
  {
    hide From, FromGpus, Between, MergePoints, MergeGpus, PointsOf, HasKey, SeriesCarries, SeriesLater, Recording;
    DeltaNewest(m.sessionId, k, now, since);
    MergeAcross(m.system, k.system, BucketStart(now), FromOf(since));
    MergedGpus(m, k, now, since);
    var gpus := MergedGpusOf(m, k, now, since);
    forall key
      ensures SeriesCarries(PointsOf(gpus, key), PointsOf(k.gpus, key), BucketStart(now))
      ensures HasKey(gpus, key) <==> HasKey(k.gpus, key)
    {
      assert SeriesOk(PointsOf(k.gpus, key), now) && SeriesStartsAt(PointsOf(k.gpus, key), start);
      assert Sorted(PointsOf(m.gpus, key));
      MergedKey(m, k, now, since, key);
      if HasKey(k.gpus, key) {
        MergeAcross(PointsOf(m.gpus, key), PointsOf(k.gpus, key), BucketStart(now), FromOf(since));
      } else {
        NoSeriesCarries(BucketStart(now));
      }
    }
  }

  lemma NoSeriesCarries(t: nat)
    ensures SeriesCarries([], [], t)
  {
  }

  // --- When a delta starts too late ---

  ghost predicate RightForEveryRecord(m: Payload, h: History, before: nat, since: nat) {
    forall now: nat, s: Sample | before <= now ::
      Agree(MergeHistory(Some(m), Snapshot(m.sessionId, Record(h, now, s), Some(since))), Record(h, now, s), BucketStart(now))
  }

  /** The proviso is exact: a delta asked for from `since` merges rightly whatever is
      recorded next if and only if `since` is not past the newest bucket held. */
  lemma SinceIsExact(m: Payload, h: History, before: nat, since: nat)
    requires Valid(h, before) && Agree(m, h, BucketStart(before))
    ensures RightForEveryRecord(m, h, before, since) <==> since <= LastAt(m.system)
  {
    if since <= LastAt(m.system) {
      forall now: nat, s: Sample | before <= now
        ensures Agree(MergeHistory(Some(m), Snapshot(m.sessionId, Record(h, now, s), Some(since))), Record(h, now, s), BucketStart(now))
      {
        RecordMovesOn(h, before, now, s);
        MergeAgrees(m, h, before, Record(h, now, s), now, Some(since));
      }
    } else {
      StaleBucket(m, h, before, since);
    }
  }

  /** One more reading in the newest bucket changes that bucket and nothing in time. */
  lemma NewestChanges(h: History, before: nat)
    requires Valid(h, before)
    ensures var k := Record(h, before, Sample(0, []));
      && k.system != [] && Sorted(k.system)
      && Last(k.system).at == Last(h.system).at && Last(k.system) != Last(h.system)
  {
    var s := Sample(0, []);
    RecordMovesOn(h, before, before, s);
    NoSampleGrows(h.system, before, before);
    AddReadingGrows(h.system, h.system, before, 0);
    var grown := AddReading(h.system, before, 0);
    SystemNewest(grown, before);
    assert Last(grown).readings == Last(h.system).readings + [0];
  }

  /** Past the newest bucket: one more reading in that bucket is never fetched. */
  lemma StaleBucket(m: Payload, h: History, before: nat, since: nat)
    requires Valid(h, before) && Agree(m, h, BucketStart(before)) && since > LastAt(m.system)
    ensures !RightForEveryRecord(m, h, before, since)
  {
    hide From, FromGpus, Between, PointsOf, MergeGpus, SeriesAgree, Record, Valid;
    var s := Sample(0, []);
    var k := Record(h, before, s);
    StaleInputs(m, h, before);
    NewestChanges(h, before);
    var delta := Snapshot(m.sessionId, k, Some(since));
    var merged := MergeHistory(Some(m), delta);
    NothingFrom(k.system, since);
    NotHeld(m.system, Last(k.system), Last(m.system), Newest(delta) - WINDOW);
    assert merged.system == From(m.system, Newest(delta) - WINDOW);
    MissingDisagrees(merged.system, k.system, Last(k.system), BucketStart(before));
    assert !Agree(merged, k, BucketStart(before));
  }

  lemma StaleInputs(m: Payload, h: History, before: nat)
    requires Valid(h, before) && Agree(m, h, BucketStart(before))
    ensures h.system != [] && m.system != [] && Sorted(m.system) && Last(m.system) == Last(h.system)
  {
  }

  lemma NothingFrom(ps: seq<Point>, since: nat)
    requires Sorted(ps) && ps != [] && Last(ps).at < since
    ensures From(ps, since) == []
  {
    FromHas(ps, since);
    LastIsLatest(ps);
    assert forall i | 0 <= i < |From(ps, since)| :: From(ps, since)[i] in ps;
  }

  lemma NotHeld(ps: seq<Point>, x: Point, last: Point, cutoff: int)
    requires Sorted(ps) && last in ps && x.at == last.at && x != last
    ensures x !in From(ps, cutoff)
  {
    FromHas(ps, cutoff);
    var i :| 0 <= i < |ps| && ps[i] == last;
    assert forall j | 0 <= j < |ps| && j != i :: ps[j].at != ps[i].at;
  }

  lemma MissingDisagrees(m: seq<Point>, p: seq<Point>, x: Point, t: nat)
    requires x in p && x !in m
    ensures !SeriesAgree(m, p, t)
  {
  }
}
