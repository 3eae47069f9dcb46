/** Polling the usage history over whole runs (`src/hooks/useTelemetryHistory.ts`): readings
    recorded, histories removed when a session ends, and polls that may overlap. */
module TelemetryPolls {
  import opened Wrappers
  import opened TelemetryPoints
  import opened TelemetryServer
  import opened TelemetryHistory

  const SESSION := "session"

  /** A state of the server's history. It belongs to the history number `epoch`, all of which
      was recorded from the bucket `start` on. */
  datatype Version = Version(history: History, now: nat, epoch: nat, start: nat)

  /** The answer of a poll: none yet, that there is no history, or from a version. */
  datatype Answer = Waiting | Absent | Answered(version: nat)

  datatype Request = Request(since: Option<nat>, answer: Answer)

  /** `live` says that the server has a history now; `basis` is the version the last
      delivered reply was answered from. */
  datatype PollState = PollState(
    versions: seq<Version>,
    live: bool,
    epoch: nat,
    requests: map<nat, Request>,
    held: Option<Payload>,
    basis: Option<nat>)

  const START := PollState([], false, 0, map[], None, None)

  datatype PollEvent =
    | Recorded(now: nat, sample: Sample)
    | Removed
    | Issued(id: nat)
    | Served(id: nat)
    | Delivered(id: nat)

  function Latest(st: PollState): Version
    requires st.versions != []
  {
    st.versions[|st.versions| - 1]
  }

  function Newer(st: PollState, now: nat, s: Sample): Version {
    if st.live && st.versions != [] then Version(Record(Latest(st).history, now, s), now, st.epoch, Latest(st).start)
    else Version(Record(EMPTY, now, s), now, st.epoch, BucketStart(now))
  }

  predicate Enabled(st: PollState, e: PollEvent) {
    match e
    case Recorded(now, _) => st.versions != [] ==> Latest(st).now <= now
    case Removed => true
    case Issued(id) => id !in st.requests
    case Served(id) => id in st.requests && st.requests[id].answer.Waiting?
    case Delivered(id) =>
      id in st.requests && match st.requests[id].answer
        case Waiting => false
        case Absent => true
        case Answered(v) => v < |st.versions|
  }

  function Next(st: PollState, e: PollEvent): PollState
    requires Enabled(st, e)
  {
    match e
    case Recorded(now, s) => st.(versions := st.versions + [Newer(st, now, s)], live := true)
    case Removed => st.(live := false, epoch := st.epoch + 1)
    case Issued(id) => st.(requests := st.requests[id := Request(LastCapturedAt(st.held), Waiting)])
    case Served(id) =>
      var answer := if st.live && st.versions != [] then Answered(|st.versions| - 1) else Absent;
      st.(requests := st.requests[id := st.requests[id].(answer := answer)])
    case Delivered(id) =>
      var r := st.requests[id];
      var rest := st.(requests := st.requests - {id});
      if r.answer.Absent? then rest
      else rest.(held := Some(MergeHistory(st.held, Reply(st, r))), basis := Some(r.answer.version))
  }

  function Reply(st: PollState, r: Request): Payload
    requires r.answer.Answered? && r.answer.version < |st.versions|
  {
    Snapshot(SESSION, st.versions[r.answer.version].history, r.since)
  }

  /** A reply is delivered, and it is not an absent one. */
  predicate Merges(st: PollState, e: PollEvent)
    requires Enabled(st, e)
  {
    e.Delivered? && st.requests[e.id].answer.Answered?
  }

  /** Replies arrive in the order they were answered. Polls that wait for one another,
      and overlapping ones on a channel that keeps order, are all like this. */
  predicate InOrder(st: PollState, e: PollEvent)
    requires Enabled(st, e)
  {
    Merges(st, e) && st.basis.Some? ==> st.requests[e.id].answer.version >= st.basis.value
  }

  // --- The versions ---

  ghost predicate LaterVersion(a: Version, b: Version) {
    Later(a.history, b.history, BucketStart(a.now), BucketStart(b.now))
  }

  /** `b` comes after `a`: it continues its history, or belongs to one begun since. */
  ghost predicate Follows(a: Version, b: Version) {
    && a.now <= b.now && a.epoch <= b.epoch
    && if a.epoch == b.epoch then LaterVersion(a, b) else BucketStart(a.now) <= b.start
  }

  ghost predicate VersionOk(v: Version) {
    Valid(v.history, v.now) && StartsAt(v.history, v.start) && v.start <= BucketStart(v.now)
  }

  ghost predicate VersionsOk(vs: seq<Version>) {
    && (forall i | 0 <= i < |vs| :: VersionOk(vs[i]))
    && (forall i, j | 0 <= i <= j < |vs| :: Follows(vs[i], vs[j]))
  }

  lemma {:induction false} LaterReflexive(h: History, now: nat)
    requires Valid(h, now)
    ensures Later(h, h, BucketStart(now), BucketStart(now))
  {
  }

  lemma LaterChains(h: History, k: History, l: History, t: nat, u: nat, v: nat)
    requires Later(h, k, t, u) && Later(k, l, u, v)
    ensures Later(h, l, t, v)
  {
    hide SeriesLater, PointsOf;
    LaterTransitive(h.system, k.system, l.system, t, u, v);
    forall key
      ensures SeriesLater(PointsOf(h.gpus, key), PointsOf(l.gpus, key), t, v)
    {
      LaterTransitive(PointsOf(h.gpus, key), PointsOf(k.gpus, key), PointsOf(l.gpus, key), t, u, v);
    }
  }

  lemma FollowsChains(a: Version, b: Version, c: Version)
    requires Follows(a, b) && Follows(b, c) && b.start <= BucketStart(b.now) && (b.epoch == c.epoch ==> b.start == c.start)
    requires a.epoch < b.epoch == c.epoch || b.epoch < c.epoch || a.epoch == c.epoch
    ensures Follows(a, c)
  {
    BucketStartOrder(a.now, b.now);
    hide BucketStart, Later;
    if a.epoch == c.epoch {
      LaterChains(a.history, b.history, c.history, BucketStart(a.now), BucketStart(b.now), BucketStart(c.now));
    }
  }

  /** The newest version is of the current history, and the next one follows it. */
  ghost predicate ServerOk(st: PollState) {
    && VersionsOk(st.versions)
    && (st.live ==> st.versions != [])
    && (st.versions != [] ==> if st.live then Latest(st).epoch == st.epoch else Latest(st).epoch < st.epoch)
  }

  lemma RecordStartsAt(h: History, before: nat, now: nat, s: Sample, start: nat)
    requires Valid(h, before) && before <= now && StartsAt(h, start) && start <= BucketStart(before)
    ensures StartsAt(Record(h, now, s), start)
  {
    RecordMovesOn(h, before, now, s);
    var k := Record(h, now, s);
    BucketStartOrder(before, now);
    hide Record, Valid;
    assert forall x | x in k.system && x.at < BucketStart(before) :: x in h.system;
    forall key ensures SeriesStartsAt(PointsOf(k.gpus, key), start) {
      assert SeriesLater(PointsOf(h.gpus, key), PointsOf(k.gpus, key), BucketStart(before), BucketStart(now));
      assert SeriesStartsAt(PointsOf(h.gpus, key), start);
    }
  }

  lemma {:induction false} FirstStartsAt(now: nat, s: Sample)
    ensures StartsAt(Record(EMPTY, now, s), BucketStart(now))
  {
    AddedStartsAt(now, s.gpus);
    var q := AddReading([], now, s.system);
    assert Grown([], [], BucketStart(now));
    AddReadingGrows([], [], now, s.system);
    TrimHas(q, now);
    var added := AddToGpus([], now, s.gpus);
    forall key ensures SeriesStartsAt(PointsOf(TrimGpus(added, now), key), BucketStart(now)) {
      AddToNone(now, s.gpus, key);
      TrimGpusPoints(added, now, key);
      TrimHas(PointsOf(added, key), now);
    }
  }

  lemma {:induction false} AddedStartsAt(now: nat, rs: seq<(string, Reading)>)
    ensures forall key :: SeriesStartsAt(PointsOf(AddToGpus([], now, rs), key), BucketStart(now))
  {
    if rs != [] {
      var n := |rs| - 1;
      AddedStartsAt(now, rs[..n]);
      AddToNone(now, rs[..n], "");
      var added := AddToGpus([], now, rs[..n]);
      forall key ensures SeriesStartsAt(PointsOf(AddToGpus([], now, rs), key), BucketStart(now)) {
        AddToGpuPoints(added, rs[n].0, now, rs[n].1, key);
        assert SeriesStartsAt(PointsOf(added, key), BucketStart(now));
      }
    }
  }

  lemma NewerIsOk(st: PollState, now: nat, s: Sample)
    requires ServerOk(st) && Enabled(st, Recorded(now, s))
    ensures var v := Newer(st, now, s);
      VersionOk(v) && (st.versions != [] ==> Follows(Latest(st), v) && (Latest(st).epoch == v.epoch ==> Latest(st).start == v.start))
  {
    if st.versions != [] {
      BucketStartOrder(Latest(st).now, now);
    }
    if st.live {
      var last := Latest(st);
      RecordMovesOn(last.history, last.now, now, s);
      RecordStartsAt(last.history, last.now, now, s, last.start);
    } else {
      FirstRecord(now, s);
      FirstStartsAt(now, s);
    }
    hide Valid, StartsAt, Later, Record;
  }

  lemma AppendKeeps(vs: seq<Version>, v: Version)
    requires VersionsOk(vs) && VersionOk(v)
    requires vs != [] ==> Follows(vs[|vs| - 1], v) && (vs[|vs| - 1].epoch == v.epoch ==> vs[|vs| - 1].start == v.start)
    ensures VersionsOk(vs + [v])
  {
    LaterReflexive(v.history, v.now);
    var all := vs + [v];
    hide Valid, StartsAt, Later, BucketStart;
    forall i, j | 0 <= i <= j < |all|
      ensures Follows(all[i], all[j])
    {
      if i < j == |vs| {
        var last := vs[|vs| - 1];
        assert Follows(vs[i], last) && VersionOk(last);
        FollowsChains(vs[i], last, v);
      }
    }
  }

  lemma RecordedKeepsServer(st: PollState, now: nat, s: Sample)
    requires ServerOk(st) && Enabled(st, Recorded(now, s))
    ensures ServerOk(Next(st, Recorded(now, s)))
  {
    NewerIsOk(st, now, s);
    AppendKeeps(st.versions, Newer(st, now, s));
    hide VersionOk, Follows, Record;
  }

  lemma ServerStep(st: PollState, e: PollEvent)
    requires ServerOk(st) && Enabled(st, e)
    ensures ServerOk(Next(st, e))
  {
    hide VersionsOk;
    if e.Recorded? {
      RecordedKeepsServer(st, e.now, e.sample);
    } else {
      hide MergeHistory, LastCapturedAt, Reply;
    }
  }

  // --- What is held ---

  ghost predicate RequestOk(st: PollState, r: Request) {
    && (r.answer.Answered? ==> r.answer.version < |st.versions|)
    && (r.since.Some? ==> st.basis.Some? && st.basis.value < |st.versions|
                          && r.since.value <= BucketStart(st.versions[st.basis.value].now))
  }

  ghost predicate HeldOk(held: Payload, v: Version, clean: bool) {
    && held.sessionId == SESSION
    && Carries(held, v.history, BucketStart(v.now))
    && (clean ==> Agree(held, v.history, BucketStart(v.now)))
  }

  ghost predicate PollInv(st: PollState) {
    && ServerOk(st)
    && (forall id | id in st.requests :: RequestOk(st, st.requests[id]))
    && (st.held.Some? <==> st.basis.Some?)
    && (st.held.Some? ==> st.basis.value < |st.versions| && HeldOk(st.held.value, st.versions[st.basis.value], st.epoch == 0))
  }

  lemma RequestsKeep(st: PollState, next: PollState)
    requires forall id | id in st.requests :: RequestOk(st, st.requests[id])
    requires |next.versions| >= |st.versions| && next.versions[..|st.versions|] == st.versions && next.basis == st.basis
    requires forall id | id in next.requests && id in st.requests :: next.requests[id].since == st.requests[id].since
    requires forall id | id in next.requests && next.requests[id].answer.Answered? :: next.requests[id].answer.version < |next.versions|
    requires forall id | id in next.requests && id !in st.requests :: RequestOk(next, next.requests[id])
    ensures forall id | id in next.requests :: RequestOk(next, next.requests[id])
  {
    hide BucketStart;
    assert forall i | 0 <= i < |st.versions| :: next.versions[i] == next.versions[..|st.versions|][i];
    forall id | id in next.requests ensures RequestOk(next, next.requests[id]) {
      if id in st.requests {
        assert RequestOk(st, st.requests[id]);
      }
    }
  }

  lemma RecordedStep(st: PollState, now: nat, s: Sample)
    requires PollInv(st) && Enabled(st, Recorded(now, s))
    ensures PollInv(Next(st, Recorded(now, s)))
  {
    RecordedKeepsServer(st, now, s);
    var next := Next(st, Recorded(now, s));
    hide ServerOk, HeldOk, Newer;
    forall id | id in st.requests && st.requests[id].answer.Answered? ensures st.requests[id].answer.version < |next.versions| {
      assert RequestOk(st, st.requests[id]);
    }
    hide RequestOk;
    RequestsKeep(st, next);
  }

  lemma RemovedStep(st: PollState)
    requires PollInv(st)
    ensures PollInv(Next(st, Removed))
  {
    var next := Next(st, Removed);
    hide VersionsOk;
    forall id | id in st.requests && st.requests[id].answer.Answered? ensures st.requests[id].answer.version < |st.versions| {
      assert RequestOk(st, st.requests[id]);
    }
    hide RequestOk, Carries, Agree;
    RequestsKeep(st, next);
  }

  lemma OwnSinceOk(st: PollState)
    requires PollInv(st)
    ensures RequestOk(st, Request(LastCapturedAt(st.held), Waiting))
  {
    if st.held.Some? {
      var v := st.versions[st.basis.value];
      assert VersionOk(v);
      hide Valid, Carries, Agree, LastCapturedAt, VersionsOk;
      OwnSinceIsEarly(st.held.value, v.history, v.now);
    }
  }

  lemma IssuedStep(st: PollState, id: nat)
    requires PollInv(st) && Enabled(st, Issued(id))
    ensures PollInv(Next(st, Issued(id)))
  {
    var next := Next(st, Issued(id));
    OwnSinceOk(st);
    hide VersionsOk, HeldOk, LastCapturedAt, BucketStart;
    forall other | other in next.requests && next.requests[other].answer.Answered? ensures next.requests[other].answer.version < |st.versions| {
      assert RequestOk(st, st.requests[other]);
    }
    RequestsKeep(st, next);
  }

  lemma ServedStep(st: PollState, id: nat)
    requires PollInv(st) && Enabled(st, Served(id))
    ensures PollInv(Next(st, Served(id)))
  {
    var next := Next(st, Served(id));
    hide VersionsOk, HeldOk, BucketStart;
    forall other | other in next.requests && next.requests[other].answer.Answered? ensures next.requests[other].answer.version < |st.versions| {
      assert RequestOk(st, st.requests[other]);
    }
    RequestsKeep(st, next);
  }

  /** Merging a reply answered from `v` into what carries `b`. */
  lemma MergedCarries(held: Payload, b: Version, v: Version, since: Option<nat>)
    requires held.sessionId == SESSION && Carries(held, b.history, BucketStart(b.now))
    requires VersionOk(b) && VersionOk(v) && Follows(b, v) && FromOf(since) <= BucketStart(b.now)
    ensures Carries(MergeHistory(Some(held), Snapshot(SESSION, v.history, since)), v.history, BucketStart(v.now))
    ensures b.epoch == v.epoch && Agree(held, b.history, BucketStart(b.now)) ==>
            Agree(MergeHistory(Some(held), Snapshot(SESSION, v.history, since)), v.history, BucketStart(v.now))
  {
    if b.epoch == v.epoch {
      hide Carries, Valid, Later, MergeHistory;
      MergeStillCarries(held, b.history, b.now, v.history, v.now, since);
      if Agree(held, b.history, BucketStart(b.now)) {
        MergeAgrees(held, b.history, b.now, v.history, v.now, since);
      }
    } else {
      hide Valid, MergeHistory, PointsOf;
      forall key ensures Sorted(PointsOf(held.gpus, key)) {
        assert SeriesCarries(PointsOf(held.gpus, key), PointsOf(b.history.gpus, key), BucketStart(b.now));
      }
      MergeAcrossCarries(held, v.history, v.now, v.start, since);
    }
  }

  lemma DeliveredHeld(st: PollState, id: nat)
    requires PollInv(st) && Enabled(st, Delivered(id)) && InOrder(st, Delivered(id)) && Merges(st, Delivered(id))
    ensures var r := st.requests[id];
      HeldOk(MergeHistory(st.held, Reply(st, r)), st.versions[r.answer.version], st.epoch == 0)
  {
    var r := st.requests[id];
    var v := st.versions[r.answer.version];
    assert VersionOk(v) && RequestOk(st, r);
    if st.held.None? {
      hide Valid, Carries, Agree, Snapshot;
      assert r.since.None?;
      FullFetchCarries(SESSION, v.history, v.now);
      FullFetchAgrees(SESSION, v.history, v.now);
      assert Reply(st, r).sessionId == SESSION by {
        SnapshotSession(v.history, r.since);
      }
    } else {
      var b := st.versions[st.basis.value];
      assert VersionOk(b) && Follows(b, v);
      EpochsZero(st, st.basis.value, r.answer.version);
      MergedSession(st.held.value, v.history, r.since);
      hide Valid, Carries, Agree, MergeHistory, Snapshot, Follows, VersionsOk;
      MergedCarries(st.held.value, b, v, r.since);
    }
  }

  lemma SnapshotSession(h: History, since: Option<nat>)
    ensures Snapshot(SESSION, h, since).sessionId == SESSION
  {
  }

  lemma MergedSession(held: Payload, h: History, since: Option<nat>)
    requires held.sessionId == SESSION
    ensures MergeHistory(Some(held), Snapshot(SESSION, h, since)).sessionId == SESSION
  {
  }

  /** Before anything was removed all versions are of the first history. */
  lemma EpochsZero(st: PollState, i: nat, j: nat)
    requires ServerOk(st) && i < |st.versions| && j < |st.versions|
    ensures st.epoch == 0 ==> st.versions[i].epoch == st.versions[j].epoch
  {
    assert Follows(st.versions[i], Latest(st)) && Follows(st.versions[j], Latest(st));
  }

  lemma AbsentStep(st: PollState, id: nat)
    requires PollInv(st) && Enabled(st, Delivered(id)) && !Merges(st, Delivered(id))
    ensures PollInv(Next(st, Delivered(id)))
  {
    var next := Next(st, Delivered(id));
    hide HeldOk, VersionsOk, BucketStart;
    forall other | other in next.requests && next.requests[other].answer.Answered? ensures next.requests[other].answer.version < |st.versions| {
      assert RequestOk(st, st.requests[other]);
    }
    hide RequestOk;
    RequestsKeep(st, next);
  }

  lemma DeliveredStep(st: PollState, id: nat)
    requires PollInv(st) && Enabled(st, Delivered(id)) && InOrder(st, Delivered(id))
    ensures PollInv(Next(st, Delivered(id)))
  {
    hide HeldOk, VersionsOk, MergeHistory, RequestOk, Reply;
    if Merges(st, Delivered(id)) {
      DeliveredHeld(st, id);
      NewBasis(st, id);
    } else {
      AbsentStep(st, id);
    }
  }

  lemma NewBasis(st: PollState, id: nat)
    requires PollInv(st) && Enabled(st, Delivered(id)) && InOrder(st, Delivered(id)) && Merges(st, Delivered(id))
    ensures var next := Next(st, Delivered(id)); forall other | other in next.requests :: RequestOk(next, next.requests[other])
  {
    var next, v := Next(st, Delivered(id)), st.requests[id].answer.version;
    if st.basis.Some? {
      assert Follows(st.versions[st.basis.value], st.versions[v]);
      BucketStartOrder(st.versions[st.basis.value].now, st.versions[v].now);
    }
    hide BucketStart, MergeHistory, HeldOk, VersionOk, Follows;
    forall other | other in next.requests ensures RequestOk(next, next.requests[other]) {
      assert RequestOk(st, st.requests[other]);
    }
  }

  lemma PollStep(st: PollState, e: PollEvent)
    requires PollInv(st) && Enabled(st, e) && InOrder(st, e)
    ensures PollInv(Next(st, e))
  {
    hide PollInv, Next;
    match e
    case Recorded(now, s) => RecordedStep(st, now, s);
    case Removed => RemovedStep(st);
    case Issued(id) => IssuedStep(st, id);
    case Served(id) => ServedStep(st, id);
    case Delivered(id) => DeliveredStep(st, id);
  }

  // --- Runs ---

  ghost predicate IsPollRun(states: seq<PollState>, events: seq<PollEvent>) {
    && |states| == |events| + 1
    && states[0] == START
    && forall i | 0 <= i < |events| :: Enabled(states[i], events[i]) && states[i + 1] == Next(states[i], events[i])
  }

  ghost predicate InOrderUpTo(states: seq<PollState>, events: seq<PollEvent>, n: nat)
    requires IsPollRun(states, events) && n <= |events|
  {
    forall i | 0 <= i < n :: InOrder(states[i], events[i])
  }

  lemma {:induction false} RunPolls(states: seq<PollState>, events: seq<PollEvent>, n: nat)
    requires IsPollRun(states, events) && n <= |events| && InOrderUpTo(states, events, n)
    ensures PollInv(states[n])
  {
    hide PollInv, Next, InOrder, Enabled;
    if n == 0 {
      StartInv();
    } else {
      RunPolls(states, events, n - 1);
      PollStep(states[n - 1], events[n - 1]);
    }
  }

  lemma StartInv()
    ensures PollInv(START)
  {
  }

  /** No history was removed in the first `n` steps. */
  ghost predicate NeverRemoved(events: seq<PollEvent>, n: nat)
    requires n <= |events|
  {
    forall i | 0 <= i < n :: !events[i].Removed?
  }

  lemma {:induction false} FirstEpoch(states: seq<PollState>, events: seq<PollEvent>, n: nat)
    requires IsPollRun(states, events) && n <= |events| && NeverRemoved(events, n)
    ensures states[n].epoch == 0
  {
    if n > 0 {
      FirstEpoch(states, events, n - 1);
      assert !events[n - 1].Removed?;
    }
  }

  /** The refinement theorem: in every run with replies in order, overlapping polls included,
      what is held after each reply agrees with the version of the server's history that the
      reply was answered from, for the system series and every GPU, if no history was
      removed. If some were, it agrees exactly when no series holds a bucket inside the
      window that is older than the first the server has for it. */
  lemma PollingRefinesFetching(states: seq<PollState>, events: seq<PollEvent>, n: nat)
    requires IsPollRun(states, events) && 0 < n <= |events| && InOrderUpTo(states, events, n)
    requires Merges(states[n - 1], events[n - 1])
    ensures var st := states[n];
      && st.held.Some? && st.basis == Some(states[n - 1].requests[events[n - 1].id].answer.version)
      && st.basis.value < |st.versions|
      && var v := st.versions[st.basis.value];
      && Valid(v.history, v.now) && Carries(st.held.value, v.history, BucketStart(v.now))
      && (Agree(st.held.value, v.history, BucketStart(v.now)) <==> NothingLeftOver(st.held.value, v.history, BucketStart(v.now)))
      && (NeverRemoved(events, n) ==> Agree(st.held.value, v.history, BucketStart(v.now)))
  {
    RunPolls(states, events, n);
    var st := states[n];
    assert st == Next(states[n - 1], events[n - 1]);
    if NeverRemoved(events, n) {
      FirstEpoch(states, events, n);
    }
    var v := st.versions[st.basis.value];
    assert VersionOk(v);
    hide IsPollRun, Valid, Carries, Agree, NothingLeftOver, Next;
    CarriesIsAgree(st.held.value, v.history, v.now);
  }

  lemma NothingIsLeftOver(m: seq<Point>, t: nat)
    ensures NoLeftovers(m, [], t)
  {
  }

  lemma KeyOk(v: Version, key: string)
    requires VersionOk(v)
    ensures var p := PointsOf(v.history.gpus, key);
      SeriesKept(p, BucketStart(v.now)) && SeriesStartsAt(p, v.start) && (HasKey(v.history.gpus, key) <==> p != [])
  {
    hide PointsOf, HasKey;
    assert SeriesOk(PointsOf(v.history.gpus, key), v.now);
  }

  lemma KeyLeftovers(held: Payload, v: Version, since: Option<nat>, key: string)
    requires VersionOk(v) && FromOf(since) <= v.start && Sorted(PointsOf(held.gpus, key))
    ensures var gpus := MergedGpusOf(held, v.history, v.now, since);
      NoLeftovers(PointsOf(gpus, key), PointsOf(v.history.gpus, key), BucketStart(v.now))
      <==> NoLeftovers(PointsOf(held.gpus, key), PointsOf(v.history.gpus, key), BucketStart(v.now))
  {
    hide VersionOk, MergedGpusOf, MergePoints, PointsOf, HasKey, From;
    NothingIsLeftOver(PointsOf(held.gpus, key), BucketStart(v.now));
    NothingIsLeftOver(PointsOf(MergedGpusOf(held, v.history, v.now, since), key), BucketStart(v.now));
    hide NoLeftovers;
    var p := PointsOf(v.history.gpus, key);
    KeyOk(v, key);
    MergedKey(held, v.history, v.now, since, key);
    if p != [] {
      AcrossLeftovers(PointsOf(held.gpus, key), p, BucketStart(v.now), FromOf(since));
    }
  }

  lemma AcrossLeavesWhatWasHeld(held: Payload, v: Version, since: Option<nat>)
    requires VersionOk(v) && FromOf(since) <= v.start
    requires Sorted(held.system) && forall key :: Sorted(PointsOf(held.gpus, key))
    requires held.sessionId == SESSION
    ensures NothingLeftOver(MergeHistory(Some(held), Snapshot(held.sessionId, v.history, since)), v.history, BucketStart(v.now))
       <==> NothingLeftOver(held, v.history, BucketStart(v.now))
  {
    hide NoLeftovers, PointsOf, MergePoints, From, MergedGpusOf, Sorted, MergeHistory, Snapshot;
    var k, u := v.history, BucketStart(v.now);
    var merged := MergeHistory(Some(held), Snapshot(held.sessionId, k, since));
    MergedParts(held, k, v.now, since);
    AcrossLeftovers(held.system, k.system, u, FromOf(since));
    hide Valid, StartsAt;
    forall key
      ensures NoLeftovers(PointsOf(merged.gpus, key), PointsOf(k.gpus, key), u) <==> NoLeftovers(PointsOf(held.gpus, key), PointsOf(k.gpus, key), u)
    {
      KeyLeftovers(held, v, since, key);
    }
  }

  /** A history removed and begun anew between two replies: what is held agrees after the
      second exactly when nothing held before it, of the series the new history has, was
      inside the window and older than the first new bucket of that series. */
  lemma AgreementAcrossRemoval(states: seq<PollState>, events: seq<PollEvent>, n: nat)
    requires IsPollRun(states, events) && 0 < n <= |events| && InOrderUpTo(states, events, n)
    requires Merges(states[n - 1], events[n - 1]) && states[n - 1].held.Some? && states[n - 1].basis.Some?
    requires states[n - 1].basis.value < |states[n - 1].versions|
    requires var before := states[n - 1];
      before.versions[before.basis.value].epoch != before.versions[before.requests[events[n - 1].id].answer.version].epoch
    ensures var v := states[n - 1].versions[states[n - 1].requests[events[n - 1].id].answer.version];
      states[n].held.Some? &&
      (Agree(states[n].held.value, v.history, BucketStart(v.now)) <==> NothingLeftOver(states[n - 1].held.value, v.history, BucketStart(v.now)))
  {
    var st, id := states[n - 1], events[n - 1].id;
    var r := st.requests[id];
    var b, v := st.versions[st.basis.value], st.versions[r.answer.version];
    RunPolls(states, events, n - 1);
    assert RequestOk(st, r) && VersionOk(b) && VersionOk(v) && Follows(b, v);
    HeldSorted(st.held.value, b);
    assert InOrder(states[n - 1], events[n - 1]);
    PollingRefinesFetching(states, events, n);
    hide Valid, Carries, Agree, NothingLeftOver, MergeHistory, Snapshot, VersionsOk;
    AcrossLeavesWhatWasHeld(st.held.value, v, r.since);
  }

  lemma HeldSorted(held: Payload, b: Version)
    requires Carries(held, b.history, BucketStart(b.now))
    ensures Sorted(held.system) && forall key :: Sorted(PointsOf(held.gpus, key))
  {
    forall key ensures Sorted(PointsOf(held.gpus, key)) {
      assert SeriesCarries(PointsOf(held.gpus, key), PointsOf(b.history.gpus, key), BucketStart(b.now));
    }
  }
}
