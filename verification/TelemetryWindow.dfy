/** The whole window, its edge included, over runs in which no history is removed. */
module TelemetryWindow {
  import opened Wrappers
  import opened TelemetryPoints
  import opened TelemetryServer
  import opened TelemetryHistory
  import opened TelemetryEdge
  import opened TelemetryPolls

  ghost predicate HistoryEdgeLater(h: History, k: History, before: nat, now: nat) {
    && EdgeLater(h.system, k.system, before, now)
    && forall key :: EdgeLater(PointsOf(h.gpus, key), PointsOf(k.gpus, key), before, now)
  }

  ghost predicate HistoryEdgeKept(h: History, now: nat) {
    EdgeKept(h.system, now) && forall key :: EdgeKept(PointsOf(h.gpus, key), now)
  }

  ghost predicate HistoryEdgeAgree(m: Payload, h: History, now: nat) {
    EdgeAgree(m.system, h.system, now) && forall key :: EdgeAgree(PointsOf(m.gpus, key), PointsOf(h.gpus, key), now)
  }

  lemma RecordAtEdge(h: History, before: nat, now: nat, s: Sample)
    requires Valid(h, before) && before <= now
    ensures HistoryEdgeLater(h, Record(h, now, s), before, now) && HistoryEdgeKept(Record(h, now, s), now)
  {
    var k := Record(h, now, s);
    hide Trim, AddReading, AddToGpus, TrimGpus;
    NoSampleGrows(h.system, before, now);
    AddReadingGrows(h.system, h.system, now, s.system);
    EdgeMovesOn(h.system, AddReading(h.system, now, s.system), before, now);
    hide EdgeLater, EdgeKept;
    forall key
      ensures EdgeLater(PointsOf(h.gpus, key), PointsOf(k.gpus, key), before, now) && EdgeKept(PointsOf(k.gpus, key), now)
    {
      assert SeriesOk(PointsOf(h.gpus, key), before);
      AddToGpusGrows(h.gpus, before, now, s.gpus, key);
      TrimGpusPoints(AddToGpus(h.gpus, now, s.gpus), now, key);
      hide PointsOf, HasKey, SeriesOk;
      EdgeMovesOn(PointsOf(h.gpus, key), PointsOf(AddToGpus(h.gpus, now, s.gpus), key), before, now);
    }
  }

  lemma FirstAtEdge(now: nat, s: Sample)
    ensures HistoryEdgeKept(Record(EMPTY, now, s), now)
  {
    var k := Record(EMPTY, now, s);
    hide Trim, AddReading, AddToGpus, TrimGpus, EdgeKept;
    assert Grown([], [], BucketStart(now));
    AddReadingGrows([], [], now, s.system);
    TrimAtEdge(AddReading([], now, s.system), now);
    var added := AddToGpus([], now, s.gpus);
    forall key ensures EdgeKept(PointsOf(k.gpus, key), now) {
      AddToNone(now, s.gpus, key);
      TrimGpusPoints(added, now, key);
      TrimAtEdge(PointsOf(added, key), now);
    }
  }

  ghost predicate EdgeFollows(a: Version, b: Version) {
    HistoryEdgeLater(a.history, b.history, a.now, b.now)
  }

  ghost predicate EdgesOk(vs: seq<Version>) {
    && (forall i | 0 <= i < |vs| :: HistoryEdgeKept(vs[i].history, vs[i].now))
    && (forall i, j | 0 <= i <= j < |vs| :: EdgeFollows(vs[i], vs[j]))
  }

  lemma EdgeFollowsSelf(v: Version)
    ensures EdgeFollows(v, v)
  {
    hide EdgeLater;
    EdgeLaterReflexive(v.history.system, v.now);
    forall key ensures EdgeLater(PointsOf(v.history.gpus, key), PointsOf(v.history.gpus, key), v.now, v.now) {
      EdgeLaterReflexive(PointsOf(v.history.gpus, key), v.now);
    }
  }

  lemma EdgeFollowsChains(a: Version, b: Version, c: Version)
    requires LaterVersion(a, b) && LaterVersion(b, c) && EdgeFollows(a, b) && EdgeFollows(b, c)
    ensures EdgeFollows(a, c)
  {
    hide EdgeLater, SeriesLater, PointsOf;
    EdgeLaterChains(a.history.system, b.history.system, c.history.system, a.now, b.now, c.now);
    forall key ensures EdgeLater(PointsOf(a.history.gpus, key), PointsOf(c.history.gpus, key), a.now, c.now) {
      EdgeLaterChains(PointsOf(a.history.gpus, key), PointsOf(b.history.gpus, key), PointsOf(c.history.gpus, key), a.now, b.now, c.now);
    }
  }

  lemma EdgesGrow(vs: seq<Version>, v: Version)
    requires EdgesOk(vs) && HistoryEdgeKept(v.history, v.now)
    requires vs != [] ==> EdgeFollows(vs[|vs| - 1], v) && LaterVersion(vs[|vs| - 1], v)
    requires forall i, j | 0 <= i <= j < |vs| :: LaterVersion(vs[i], vs[j])
    ensures EdgesOk(vs + [v])
  {
    EdgeFollowsSelf(v);
    var all := vs + [v];
    hide HistoryEdgeKept, EdgeFollows, LaterVersion;
    forall i, j | 0 <= i <= j < |all|
      ensures EdgeFollows(all[i], all[j])
    {
      if i < j == |vs| {
        assert LaterVersion(vs[i], vs[|vs| - 1]);
        EdgeFollowsChains(vs[i], vs[|vs| - 1], v);
      }
    }
  }

  ghost predicate EdgeInv(st: PollState) {
    && EdgesOk(st.versions)
    && (st.held.Some? && st.basis.Some? && st.basis.value < |st.versions| ==>
          HistoryEdgeAgree(st.held.value, st.versions[st.basis.value].history, st.versions[st.basis.value].now))
  }

  lemma AllLater(st: PollState)
    requires ServerOk(st) && st.epoch == 0
    ensures forall i, j | 0 <= i <= j < |st.versions| :: LaterVersion(st.versions[i], st.versions[j])
  {
    hide LaterVersion, VersionOk;
    forall i, j | 0 <= i <= j < |st.versions| ensures LaterVersion(st.versions[i], st.versions[j]) {
      EpochsZero(st, i, j);
      assert Follows(st.versions[i], st.versions[j]);
    }
  }

  lemma NewerAtEdge(st: PollState, now: nat, s: Sample)
    requires PollInv(st) && st.epoch == 0 && Enabled(st, Recorded(now, s))
    ensures var v := Newer(st, now, s);
      HistoryEdgeKept(v.history, v.now) && (st.versions != [] ==> EdgeFollows(Latest(st), v) && LaterVersion(Latest(st), v))
  {
    NewerIsOk(st, now, s);
    if st.versions != [] {
      var last := Latest(st);
      assert VersionOk(last) && st.live && last.epoch == 0;
      hide VersionsOk, HistoryEdgeKept, HistoryEdgeLater, Later, Record, StartsAt, Valid;
      RecordAtEdge(last.history, last.now, now, s);
    } else {
      FirstAtEdge(now, s);
    }
  }

  lemma NewerEdges(st: PollState, now: nat, s: Sample)
    requires PollInv(st) && st.epoch == 0 && EdgesOk(st.versions) && Enabled(st, Recorded(now, s))
    ensures EdgesOk(st.versions + [Newer(st, now, s)])
  {
    hide VersionsOk, VersionOk, HistoryEdgeKept, EdgeFollows, LaterVersion, Newer, HeldOk, RequestOk, EdgesOk;
    AllLater(st);
    NewerAtEdge(st, now, s);
    hide PollInv, ServerOk;
    EdgesGrow(st.versions, Newer(st, now, s));
  }

  lemma BasisIsOld(st: PollState)
    requires PollInv(st)
    ensures st.held.Some? && st.basis.Some? ==> st.basis.value < |st.versions|
  {
    hide ServerOk, RequestOk, HeldOk;
  }

  lemma RecordedEdge(st: PollState, now: nat, s: Sample)
    requires PollInv(st) && st.epoch == 0 && EdgeInv(st) && Enabled(st, Recorded(now, s))
    ensures EdgeInv(Next(st, Recorded(now, s)))
  {
    BasisIsOld(st);
    hide PollInv, EdgesOk, HistoryEdgeAgree, Newer;
    NewerEdges(st, now, s);
    RecordedKeeps(st, now, s);
    hide Next, Enabled;
  }

  lemma RecordedKeeps(st: PollState, now: nat, s: Sample)
    requires Enabled(st, Recorded(now, s))
    ensures var next := Next(st, Recorded(now, s));
      && next.versions == st.versions + [Newer(st, now, s)] && next.held == st.held && next.basis == st.basis
      && forall i | 0 <= i < |st.versions| :: next.versions[i] == st.versions[i]
  {
    hide Newer;
  }

  /** All that is known of one series when a reply from `v` meets what was held from `b`. */
  ghost predicate SeriesMeets(m: seq<Point>, p: seq<Point>, q: seq<Point>, before: nat, now: nat) {
    && SeriesAgree(m, p, BucketStart(before)) && SeriesOk(p, before) && SeriesOk(q, now) && EdgeAgree(m, p, before)
    && SeriesLater(p, q, BucketStart(before), BucketStart(now)) && EdgeLater(p, q, before, now)
  }

  ghost predicate Meets(held: Payload, b: Version, v: Version) {
    && held.sessionId == SESSION && b.now <= v.now
    && Valid(v.history, v.now)
    && SeriesMeets(held.system, b.history.system, v.history.system, b.now, v.now)
    && forall key :: SeriesMeets(PointsOf(held.gpus, key), PointsOf(b.history.gpus, key), PointsOf(v.history.gpus, key), b.now, v.now)
  }

  lemma ReplyMeets(held: Payload, b: Version, v: Version)
    requires held.sessionId == SESSION && VersionOk(b) && VersionOk(v) && b.now <= v.now
    requires Agree(held, b.history, BucketStart(b.now)) && LaterVersion(b, v) && EdgeFollows(b, v)
    requires HistoryEdgeAgree(held, b.history, b.now)
    ensures Meets(held, b, v)
  {
    hide SeriesAgree, SeriesLater, EdgeLater, EdgeAgree, SeriesOk, PointsOf, HasKey, StartsAt, BucketStart;
  }

  lemma MergeMeets(m: seq<Point>, p: seq<Point>, q: seq<Point>, before: nat, now: nat, since: nat)
    requires SeriesMeets(m, p, q, before, now) && since <= BucketStart(before) && before <= now
    ensures EdgeAgree(MergePoints(m, From(q, since), BucketStart(now) - WINDOW), q, now)
  {
    hide SeriesAgree, SeriesLater, EdgeLater, EdgeAgree, SeriesOk, MergePoints, From, BucketStart;
    MergeAtEdge(m, p, q, before, now, since);
  }

  lemma MergedKeyEdge(held: Payload, b: Version, v: Version, since: Option<nat>, key: string)
    requires Meets(held, b, v) && FromOf(since) <= BucketStart(b.now)
    ensures EdgeAgree(PointsOf(MergedGpusOf(held, v.history, v.now, since), key), PointsOf(v.history.gpus, key), v.now)
  {
    hide Valid, SeriesMeets, EdgeAgree, MergedGpusOf, MergePoints, PointsOf, HasKey, BucketStart, From;
    var m, p, q := PointsOf(held.gpus, key), PointsOf(b.history.gpus, key), PointsOf(v.history.gpus, key);
    assert SeriesMeets(m, p, q, b.now, v.now);
    MergedKey(held, v.history, v.now, since, key);
    NothingAtEdge(q, v.now);
    if HasKey(v.history.gpus, key) {
      MergeMeets(m, p, q, b.now, v.now, FromOf(since));
    }
  }

  lemma MergedEdge(held: Payload, b: Version, v: Version, since: Option<nat>)
    requires Meets(held, b, v) && FromOf(since) <= BucketStart(b.now)
    ensures HistoryEdgeAgree(MergeHistory(Some(held), Snapshot(held.sessionId, v.history, since)), v.history, v.now)
  {
    hide Meets, MergeHistory, Snapshot, EdgeAgree, PointsOf, MergedGpusOf, MergePoints, From, Valid, SeriesMeets;
    var merged := MergeHistory(Some(held), Snapshot(held.sessionId, v.history, since));
    MeetsSystem(held, b, v);
    BucketStartOrder(b.now, v.now);
    hide BucketStart;
    MergedParts(held, v.history, v.now, since);
    MergeMeets(held.system, b.history.system, v.history.system, b.now, v.now, FromOf(since));
    forall key ensures EdgeAgree(PointsOf(merged.gpus, key), PointsOf(v.history.gpus, key), v.now) {
      MergedKeyEdge(held, b, v, since, key);
    }
  }

  lemma MeetsSystem(held: Payload, b: Version, v: Version)
    requires Meets(held, b, v)
    ensures held.sessionId == SESSION && b.now <= v.now && Valid(v.history, v.now)
    ensures SeriesMeets(held.system, b.history.system, v.history.system, b.now, v.now)
  {
  }

  lemma NothingAtEdge(p: seq<Point>, now: nat)
    ensures EdgeAgree([], p, now) && EdgeAgree(p, p, now)
  {
  }

  lemma FetchedEdge(h: History, now: nat)
    requires Valid(h, now)
    ensures HistoryEdgeAgree(Snapshot(SESSION, h, None), h, now)
  {
    FromAll(h.system);
    NothingAtEdge(h.system, now);
    hide EdgeAgree;
    forall key ensures EdgeAgree(PointsOf(FromGpus(h.gpus, 0), key), PointsOf(h.gpus, key), now) {
      FromGpusPoints(h.gpus, 0, key);
      FromAll(PointsOf(h.gpus, key));
      NothingAtEdge(PointsOf(h.gpus, key), now);
    }
  }

  lemma DeliveredState(st: PollState, id: nat)
    requires Enabled(st, Delivered(id)) && Merges(st, Delivered(id))
    ensures var next, r := Next(st, Delivered(id)), st.requests[id];
      && next.versions == st.versions && next.basis == Some(r.answer.version)
      && next.held == Some(MergeHistory(st.held, Snapshot(SESSION, st.versions[r.answer.version].history, r.since)))
  {
    hide MergeHistory, Snapshot;
  }

  lemma DeliveredEdge(st: PollState, id: nat)
    requires PollInv(st) && st.epoch == 0 && EdgeInv(st)
    requires Enabled(st, Delivered(id)) && InOrder(st, Delivered(id)) && Merges(st, Delivered(id))
    ensures EdgeInv(Next(st, Delivered(id)))
  {
    var r := st.requests[id];
    var v := st.versions[r.answer.version];
    assert VersionOk(v) && RequestOk(st, r);
    DeliveredState(st, id);
    hide Next, VersionsOk, EdgesOk, HistoryEdgeAgree, Valid, Snapshot, MergeHistory, StartsAt;
    if st.held.None? {
      assert r.since.None?;
      FetchedEdge(v.history, v.now);
      FetchedHeld(v.history);
    } else {
      var b := st.versions[st.basis.value];
      BasisFollowed(st, r.answer.version);
      hide VersionOk, Carries, Agree, EdgeFollows, LaterVersion, Meets;
      ReplyMeets(st.held.value, b, v);
      MergedEdge(st.held.value, b, v, r.since);
    }
  }

  lemma FetchedHeld(h: History)
    ensures MergeHistory(None, Snapshot(SESSION, h, None)) == Snapshot(SESSION, h, None)
  {
  }

  lemma BasisFollowed(st: PollState, i: nat)
    requires PollInv(st) && st.epoch == 0 && EdgeInv(st) && st.basis.Some? && st.basis.value <= i < |st.versions|
    ensures var b, v := st.versions[st.basis.value], st.versions[i];
      VersionOk(b) && LaterVersion(b, v) && EdgeFollows(b, v) && b.now <= v.now
  {
    AllLater(st);
    hide VersionOk, LaterVersion, EdgeFollows, HeldOk, HistoryEdgeKept;
    assert Follows(st.versions[st.basis.value], st.versions[i]);
  }

  lemma {:induction false} RunEdges(states: seq<PollState>, events: seq<PollEvent>, n: nat)
    requires IsPollRun(states, events) && n <= |events| && InOrderUpTo(states, events, n) && NeverRemoved(events, n)
    ensures EdgeInv(states[n])
  {
    if n == 0 {
      assert EdgesOk([]);
    } else {
      var st, e := states[n - 1], events[n - 1];
      RunEdges(states, events, n - 1);
      RunPolls(states, events, n - 1);
      FirstEpoch(states, events, n - 1);
      assert !e.Removed? && InOrder(st, e);
      hide PollInv, EdgesOk, HistoryEdgeAgree, MergeHistory, Newer, LastCapturedAt, Snapshot;
      match e
      case Recorded(now, s) => RecordedEdge(st, now, s);
      case Delivered(id) =>
        if Merges(st, e) {
          DeliveredEdge(st, id);
        }
      case _ =>
    }
  }

  /** On the closed window a series held equals the server's exactly when nothing is held on
      the edge or, with the clock at the start of a bucket, some newer bucket of the window is
      missing. On everything newer it always does. */
  ghost predicate WindowIsExact(m: seq<Point>, p: seq<Point>, now: nat) {
    var edge := BucketStart(now) - WINDOW;
    && From(m, edge + 1) == From(p, edge + 1)
    && (From(m, edge) == From(p, edge) <==> !HasAt(m, edge) || (now % BUCKET == 0 && |From(m, edge + 1)| < MAX_POINTS))
  }

  lemma SeriesWindow(m: seq<Point>, p: seq<Point>, now: nat)
    requires SeriesAgree(m, p, BucketStart(now)) && SeriesOk(p, now) && EdgeAgree(m, p, now) && EdgeKept(p, now)
    ensures WindowIsExact(m, p, now)
  {
    AgreeIsEquality(m, p, BucketStart(now));
    EdgeIsExact(m, p, now);
  }

  /** After each reply, of a run without removals, every series held is the server's on
      everything newer than the window's edge, and on the edge under exactly that condition. */
  lemma HeldIsServersWindow(states: seq<PollState>, events: seq<PollEvent>, n: nat, key: string)
    requires IsPollRun(states, events) && 0 < n <= |events| && InOrderUpTo(states, events, n) && NeverRemoved(events, n)
    requires Merges(states[n - 1], events[n - 1])
    ensures states[n].held.Some? && states[n].basis.Some? && states[n].basis.value < |states[n].versions|
    ensures var m, v := states[n].held.value, states[n].versions[states[n].basis.value];
      && WindowIsExact(m.system, v.history.system, v.now)
      && WindowIsExact(PointsOf(m.gpus, key), PointsOf(v.history.gpus, key), v.now)
  {
    PollingRefinesFetching(states, events, n);
    RunEdges(states, events, n);
    var m, v := states[n].held.value, states[n].versions[states[n].basis.value];
    hide IsPollRun, InOrderUpTo, NeverRemoved, Next, Enabled, Merges, EdgesOk, WindowIsExact, SeriesOk, SeriesAgree, EdgeAgree, EdgeKept, Carries, NothingLeftOver, From;
    assert HistoryEdgeKept(v.history, v.now) by {
      KeptVersion(states[n], states[n].basis.value);
    }
    SeriesWindow(m.system, v.history.system, v.now);
    assert SeriesOk(PointsOf(v.history.gpus, key), v.now);
    SeriesWindow(PointsOf(m.gpus, key), PointsOf(v.history.gpus, key), v.now);
  }

  lemma KeptVersion(st: PollState, i: nat)
    requires EdgeInv(st) && i < |st.versions|
    ensures HistoryEdgeKept(st.versions[i].history, st.versions[i].now)
  {
  }
}
