/** The backend's usage history of one session (`src-tauri/src/ssh/telemetry_history.rs`)
    and what it guarantees a poller. */
module TelemetryServer {
  import opened Wrappers
  import opened TelemetryPoints

  datatype Series = Series(key: string, points: seq<Point>)

  datatype History = History(system: seq<Point>, gpus: seq<Series>)

  /** One telemetry reading: what the system adds, and what each reporting GPU adds. */
  datatype Sample = Sample(system: Reading, gpus: seq<(string, Reading)>)

  const EMPTY := History([], [])

  function BucketStart(now: nat): nat {
    now - now % BUCKET
  }

  /** Adds a reading to the bucket `now` falls in, opening it if it is not the last one. */
  function AddReading(ps: seq<Point>, now: nat, r: Reading): seq<Point> {
    var start := BucketStart(now);
    if ps != [] && Last(ps).at == start
    then ps[|ps| - 1 := Last(ps).(readings := Last(ps).readings + [r])]
    else ps + [Point(start, [r])]
  }

  function DropOld(ps: seq<Point>, cutoff: int): seq<Point> {
    if ps != [] && ps[0].at < cutoff then DropOld(ps[1..], cutoff) else ps
  }

  function Trim(ps: seq<Point>, now: nat): seq<Point> {
    Cap(DropOld(ps, if now < WINDOW then 0 else now - WINDOW))
  }

  function Cap(ps: seq<Point>): seq<Point> {
    if |ps| > MAX_POINTS then ps[|ps| - MAX_POINTS..] else ps
  }

  predicate HasKey(gpus: seq<Series>, key: string) {
    exists i | 0 <= i < |gpus| :: gpus[i].key == key
  }

  /** The series of a key, empty when there is none. */
  function PointsOf(gpus: seq<Series>, key: string): seq<Point> {
    if gpus == [] then []
    else if gpus[|gpus| - 1].key == key then gpus[|gpus| - 1].points
    else PointsOf(gpus[..|gpus| - 1], key)
  }

  function AddToGpu(gpus: seq<Series>, key: string, now: nat, r: Reading): seq<Series> {
    if gpus == [] then [Series(key, AddReading([], now, r))]
    else
      var n := |gpus| - 1;
      if gpus[n].key == key then gpus[..n] + [Series(key, AddReading(gpus[n].points, now, r))]
      else AddToGpu(gpus[..n], key, now, r) + [gpus[n]]
  }

  function AddToGpus(gpus: seq<Series>, now: nat, rs: seq<(string, Reading)>): seq<Series> {
    if rs == [] then gpus
    else
      var n := |rs| - 1;
      AddToGpu(AddToGpus(gpus, now, rs[..n]), rs[n].0, now, rs[n].1)
  }

  /** Trims every series and drops those left empty. */
  function TrimGpus(gpus: seq<Series>, now: nat): seq<Series> {
    if gpus == [] then []
    else
      var n := |gpus| - 1;
      var trimmed := Trim(gpus[n].points, now);
      TrimGpus(gpus[..n], now) + if trimmed == [] then [] else [Series(gpus[n].key, trimmed)]
  }

  function Record(h: History, now: nat, s: Sample): History {
    History(Trim(AddReading(h.system, now, s.system), now), TrimGpus(AddToGpus(h.gpus, now, s.gpus), now))
  }

  /** What a poller is sent: the buckets from `since` on, for every series. */
  function FromGpus(gpus: seq<Series>, since: int): seq<Series> {
    if gpus == [] then []
    else
      var n := |gpus| - 1;
      FromGpus(gpus[..n], since) + [Series(gpus[n].key, From(gpus[n].points, since))]
  }

  datatype Payload = Payload(sessionId: string, windowSecs: nat, system: seq<Point>, gpus: seq<Series>)

  function Snapshot(sessionId: string, h: History, since: Option<nat>): Payload {
    var from := if since.Some? then since.value else 0;
    Payload(sessionId, WINDOW, From(h.system, from), FromGpus(h.gpus, from))
  }

  // --- Series by key ---

  ghost predicate DistinctKeys(gpus: seq<Series>) {
    forall i, j | 0 <= i < j < |gpus| :: gpus[i].key != gpus[j].key
  }

  lemma {:induction false} PointsOfNone(gpus: seq<Series>, key: string)
    ensures !HasKey(gpus, key) ==> PointsOf(gpus, key) == []
    ensures PointsOf(gpus, key) != [] ==> HasKey(gpus, key)
  {
    if gpus != [] {
      var n := |gpus| - 1;
      PointsOfNone(gpus[..n], key);
      if HasKey(gpus[..n], key) {
        var i :| 0 <= i < n && gpus[..n][i].key == key;
        assert gpus[i].key == key;
      }
    }
  }

  lemma HasKeySnoc(gpus: seq<Series>, s: Series, key: string)
    ensures HasKey(gpus + [s], key) <==> HasKey(gpus, key) || s.key == key
  {
    if HasKey(gpus, key) {
      var i :| 0 <= i < |gpus| && gpus[i].key == key;
      assert (gpus + [s])[i].key == key;
    }
    if s.key == key {
      assert (gpus + [s])[|gpus|].key == key;
    }
  }

  lemma {:induction false} AddToGpuPoints(gpus: seq<Series>, k: string, now: nat, r: Reading, key: string)
    ensures PointsOf(AddToGpu(gpus, k, now, r), key) ==
            if key == k then AddReading(PointsOf(gpus, key), now, r) else PointsOf(gpus, key)
    ensures HasKey(AddToGpu(gpus, k, now, r), key) <==> key == k || HasKey(gpus, key)
  {
    hide AddReading;
    if gpus == [] {
      AppendSeries([], Series(k, AddReading([], now, r)), key);
      assert [] + [Series(k, AddReading([], now, r))] == [Series(k, AddReading([], now, r))];
    } else {
      var n := |gpus| - 1;
      var rest := gpus[..n];
      assert gpus == rest + [gpus[n]];
      AppendSeries(rest, gpus[n], key);
      if gpus[n].key == k {
        AppendSeries(rest, Series(k, AddReading(gpus[n].points, now, r)), key);
      } else {
        AddToGpuPoints(rest, k, now, r, key);
        AppendSeries(AddToGpu(rest, k, now, r), gpus[n], key);
      }
    }
  }

  lemma AppendSeries(gpus: seq<Series>, s: Series, key: string)
    ensures PointsOf(gpus + [s], key) == if s.key == key then s.points else PointsOf(gpus, key)
    ensures HasKey(gpus + [s], key) <==> HasKey(gpus, key) || s.key == key
  {
    assert (gpus + [s])[..|gpus|] == gpus;
    HasKeySnoc(gpus, s, key);
  }

  lemma {:induction false} AddToGpuDistinct(gpus: seq<Series>, k: string, now: nat, r: Reading)
    requires DistinctKeys(gpus)
    ensures DistinctKeys(AddToGpu(gpus, k, now, r))
  {
    hide AddReading;
    if gpus != [] {
      var n := |gpus| - 1;
      if gpus[n].key != k {
        AddToGpuDistinct(gpus[..n], k, now, r);
        AddToGpuPoints(gpus[..n], k, now, r, gpus[n].key);
        var added := AddToGpu(gpus[..n], k, now, r);
        assert !HasKey(gpus[..n], gpus[n].key);
        assert forall i | 0 <= i < |added| :: added[i].key != gpus[n].key;
      }
    }
  }

  lemma TrimNone(now: nat)
    ensures Trim([], now) == []
  {
  }

  lemma {:induction false} TrimGpusPoints(gpus: seq<Series>, now: nat, key: string)
    requires DistinctKeys(gpus)
    ensures PointsOf(TrimGpus(gpus, now), key) == Trim(PointsOf(gpus, key), now)
    ensures HasKey(TrimGpus(gpus, now), key) <==> Trim(PointsOf(gpus, key), now) != []
  {
    TrimNone(now);
    if gpus != [] {
      hide Trim;
      var n := |gpus| - 1;
      var rest := gpus[..n];
      TrimGpusPoints(rest, now, key);
      PointsOfNone(rest, gpus[n].key);
      assert !HasKey(rest, gpus[n].key);
      var points := Trim(gpus[n].points, now);
      if points == [] {
        assert TrimGpus(gpus, now) == TrimGpus(rest, now);
      } else {
        AppendSeries(TrimGpus(rest, now), Series(gpus[n].key, points), key);
      }
    }
  }

  lemma {:induction false} TrimGpusDistinct(gpus: seq<Series>, now: nat)
    requires DistinctKeys(gpus)
    ensures DistinctKeys(TrimGpus(gpus, now))
  {
    TrimNone(now);
    if gpus != [] {
      hide Trim;
      var n := |gpus| - 1;
      var rest := gpus[..n];
      TrimGpusDistinct(rest, now);
      TrimGpusPoints(rest, now, gpus[n].key);
      PointsOfNone(rest, gpus[n].key);
      assert !HasKey(rest, gpus[n].key);
      var trimmed := TrimGpus(rest, now);
      assert !HasKey(trimmed, gpus[n].key);
      assert forall i | 0 <= i < |trimmed| :: trimmed[i].key != gpus[n].key;
    }
  }

  lemma {:induction false} FromGpusPoints(gpus: seq<Series>, since: int, key: string)
    ensures PointsOf(FromGpus(gpus, since), key) == From(PointsOf(gpus, key), since)
    ensures HasKey(FromGpus(gpus, since), key) <==> HasKey(gpus, key)
  {
    if gpus != [] {
      var n := |gpus| - 1;
      var rest := gpus[..n];
      FromGpusPoints(rest, since, key);
      var s := Series(gpus[n].key, From(gpus[n].points, since));
      assert (FromGpus(rest, since) + [s])[..n] == FromGpus(rest, since) by {
        FromGpusLength(rest, since);
      }
      HasKeySnoc(FromGpus(rest, since), s, key);
      assert gpus == rest + [gpus[n]];
      HasKeySnoc(rest, gpus[n], key);
    }
  }

  lemma {:induction false} FromGpusLength(gpus: seq<Series>, since: int)
    ensures |FromGpus(gpus, since)| == |gpus|
    ensures forall i | 0 <= i < |gpus| :: FromGpus(gpus, since)[i].key == gpus[i].key
  {
    if gpus != [] {
      FromGpusLength(gpus[..|gpus| - 1], since);
    }
  }

  // --- The invariant, and how a series moves on ---

  predicate Aligned(ps: seq<Point>) {
    forall i | 0 <= i < |ps| :: ps[i].at % BUCKET == 0
  }

  /** A series while a reading at `now` is being recorded: nothing newer than its bucket. */
  ghost predicate Recording(ps: seq<Point>, start: nat) {
    Sorted(ps) && Aligned(ps) && forall x | x in ps :: x.at <= start
  }

  /** The invariant of a session that has recorded up to `now`. */
  ghost predicate Valid(h: History, now: nat) {
    && h.system != [] && Last(h.system).at == BucketStart(now)
    && DistinctKeys(h.gpus)
    && SeriesOk(h.system, now)
    && (forall key :: SeriesOk(PointsOf(h.gpus, key), now))
    && (forall key :: HasKey(h.gpus, key) <==> PointsOf(h.gpus, key) != [])
  }

  ghost predicate SeriesOk(ps: seq<Point>, now: nat) {
    Recording(ps, BucketStart(now)) && SeriesKept(ps, BucketStart(now))
  }

  /** `q` is `p` with readings added in the bucket `start` only. */
  ghost predicate Grown(p: seq<Point>, q: seq<Point>, start: nat) {
    && Recording(q, start)
    && (forall x: Point | x.at < start :: x in p <==> x in q)
    && (forall x | x in p && x.at == start :: exists y :: y in q && y.at == start)
  }

  lemma BucketStartOrder(a: nat, b: nat)
    requires a <= b
    ensures BucketStart(a) <= BucketStart(b) <= b < BucketStart(b) + BUCKET
    ensures BucketStart(a) % BUCKET == 0
  {
    assert BucketStart(a) == BUCKET * (a / BUCKET) && BucketStart(b) == BUCKET * (b / BUCKET);
    assert a / BUCKET <= b / BUCKET;
  }

  lemma AddReadingGrows(p: seq<Point>, q: seq<Point>, now: nat, r: Reading)
    requires Grown(p, q, BucketStart(now))
    ensures Grown(p, AddReading(q, now, r), BucketStart(now))
    ensures AddReading(q, now, r) != [] && Last(AddReading(q, now, r)).at == BucketStart(now)
  {
    var start := BucketStart(now);
    var after := AddReading(q, now, r);
    BucketStartOrder(now, now);
    assert forall i | 0 <= i < |q| :: q[i] in q;
    if q != [] && Last(q).at == start {
      AddToLast(q, after, start);
    } else {
      assert forall x | x in after :: x in q || x == Point(start, [r]);
      assert after[|q|] == Point(start, [r]);
      if q != [] {
        LastIsLatest(q);
        assert forall x | x in q :: x.at < start;
      }
    }
  }

  lemma AddToLast(q: seq<Point>, after: seq<Point>, start: nat)
    requires Sorted(q) && q != [] && Last(q).at == start
    requires |after| == |q| && after[..|q| - 1] == q[..|q| - 1] && Last(after).at == start
    ensures Sorted(after)
    ensures forall x: Point | x.at < start :: x in q <==> x in after
    ensures Last(after) in after
    ensures forall x | x in after :: x in q || x == Last(after)
  {
    var n := |q| - 1;
    assert q == q[..n] + [Last(q)] && after == after[..n] + [Last(after)];
    assert forall i | 0 <= i < n :: after[i] == after[..n][i] == q[..n][i] == q[i];
  }

  lemma {:induction false} DropOldSuffix(ps: seq<Point>, cutoff: int) returns (d: nat)
    ensures d <= |ps| && DropOld(ps, cutoff) == ps[d..]
  {
    d := 0;
    if ps != [] && ps[0].at < cutoff {
      d := DropOldSuffix(ps[1..], cutoff);
      d := d + 1;
    }
  }

  lemma {:induction false} DropOldHas(ps: seq<Point>, cutoff: int)
    requires Sorted(ps)
    ensures forall x :: x in DropOld(ps, cutoff) <==> x in ps && x.at >= cutoff
  {
    if ps != [] {
      assert ps == [ps[0]] + ps[1..];
      if ps[0].at < cutoff {
        DropOldHas(ps[1..], cutoff);
      } else {
        assert forall i | 0 <= i < |ps| :: ps[0].at <= ps[i].at;
      }
    }
  }

  /** Aligned buckets in time order lie at least `BUCKET` apart. */
  lemma {:induction false} Spread(ps: seq<Point>, i: nat, j: nat)
    requires Sorted(ps) && Aligned(ps) && i <= j < |ps|
    ensures ps[i].at + BUCKET * (j - i) <= ps[j].at
  {
    if i < j {
      Spread(ps, i, j - 1);
      assert ps[j - 1].at < ps[j].at;
    }
  }

  lemma SuffixRecording(ps: seq<Point>, d: nat, start: nat)
    requires Recording(ps, start) && d <= |ps|
    ensures Recording(ps[d..], start)
  {
    assert forall i | 0 <= i < |ps[d..]| :: ps[d..][i] == ps[d + i];
  }

  lemma DropKeepsRecording(ps: seq<Point>, cutoff: int, start: nat)
    requires Recording(ps, start)
    ensures Recording(DropOld(ps, cutoff), start)
  {
    var d := DropOldSuffix(ps, cutoff);
    SuffixRecording(ps, d, start);
  }

  lemma DroppedAreOld(ps: seq<Point>, now: nat, cutoff: int)
    requires Recording(ps, BucketStart(now)) && cutoff == (if now < WINDOW then 0 else now - WINDOW)
    ensures forall x | x in ps && x !in DropOld(ps, cutoff) :: x.at <= BucketStart(now) - WINDOW
  {
    hide DropOld;
    DropOldHas(ps, cutoff);
    BucketStartOrder(now, now);
    forall x | x in ps && x !in DropOld(ps, cutoff)
      ensures x.at <= BucketStart(now) - WINDOW
    {
      var i :| 0 <= i < |ps| && ps[i] == x;
      AlignedBelow(ps[i].at, BucketStart(now) - WINDOW, now - WINDOW);
    }
  }

  /** Trimming keeps a suffix, and all it drops has left the window. */
  lemma TrimHas(ps: seq<Point>, now: nat)
    requires Recording(ps, BucketStart(now))
    ensures Recording(Trim(ps, now), BucketStart(now))
    ensures forall x | x in Trim(ps, now) :: x in ps && x.at >= now - WINDOW
    ensures forall x | x in ps && x !in Trim(ps, now) :: x.at <= BucketStart(now) - WINDOW
  {
    var cutoff := if now < WINDOW then 0 else now - WINDOW;
    var kept := DropOld(ps, cutoff);
    DropOldHas(ps, cutoff);
    DropKeepsRecording(ps, cutoff, BucketStart(now));
    DroppedAreOld(ps, now, cutoff);
    CapHas(kept, BucketStart(now));
    assert Trim(ps, now) == Cap(kept);
    hide *;
  }

  lemma AlignedBelow(x: nat, boundary: int, cutoff: int)
    requires x % BUCKET == 0 && boundary % BUCKET == 0 && x < cutoff < boundary + BUCKET
    ensures x <= boundary
  {
  }

  lemma FarFromNewest(kept: seq<Point>, i: nat, start: nat)
    requires Recording(kept, start) && i + MAX_POINTS < |kept|
    ensures kept[i].at <= start - WINDOW
  {
    Spread(kept, i, |kept| - 1);
    assert kept[|kept| - 1] in kept;
  }

  lemma CapHas(kept: seq<Point>, start: nat)
    requires Recording(kept, start)
    ensures Recording(Cap(kept), start)
    ensures forall x | x in Cap(kept) :: x in kept
    ensures forall x | x in kept && x !in Cap(kept) :: x.at <= start - WINDOW
  {
    if |kept| > MAX_POINTS {
      var n := |kept| - MAX_POINTS;
      var capped := kept[n..];
      SuffixRecording(kept, n, start);
      assert forall j | n <= j < |kept| :: kept[j] == capped[j - n];
      forall x | x in kept && x !in capped
        ensures x.at <= start - WINDOW
      {
        var i :| 0 <= i < |kept| && kept[i] == x;
        FarFromNewest(kept, i, start);
      }
    }
  }

  /** One series over one record. */
  lemma SeriesMovesOn(p: seq<Point>, q: seq<Point>, before: nat, now: nat)
    requires before <= now && SeriesOk(p, before) && Grown(p, q, BucketStart(now))
    ensures SeriesOk(Trim(q, now), now)
    ensures SeriesLater(p, Trim(q, now), BucketStart(before), BucketStart(now))
  {
    var t, u := BucketStart(before), BucketStart(now);
    var r := Trim(q, now);
    BucketStartOrder(before, now);
    TrimHas(q, now);
    forall x | x in p && x.at == t && t > u - WINDOW
      ensures exists y :: y in r && y.at == t
    {
      if t < u {
        assert x in q && x in r;
      } else {
        var y :| y in q && y.at == u;
        assert y in r;
      }
    }
  }

  lemma NoSampleGrows(p: seq<Point>, before: nat, now: nat)
    requires before <= now && SeriesOk(p, before)
    ensures Grown(p, p, BucketStart(now))
  {
    BucketStartOrder(before, now);
  }

  lemma {:induction false} AddToGpusGrows(gpus: seq<Series>, before: nat, now: nat, rs: seq<(string, Reading)>, key: string)
    requires before <= now && DistinctKeys(gpus) && SeriesOk(PointsOf(gpus, key), before)
    ensures DistinctKeys(AddToGpus(gpus, now, rs))
    ensures Grown(PointsOf(gpus, key), PointsOf(AddToGpus(gpus, now, rs), key), BucketStart(now))
  {
    if rs == [] {
      NoSampleGrows(PointsOf(gpus, key), before, now);
    } else {
      var n := |rs| - 1;
      AddToGpusGrows(gpus, before, now, rs[..n], key);
      var added := AddToGpus(gpus, now, rs[..n]);
      AddToGpuPoints(added, rs[n].0, now, rs[n].1, key);
      AddToGpuDistinct(added, rs[n].0, now, rs[n].1);
      if rs[n].0 == key {
        AddReadingGrows(PointsOf(gpus, key), PointsOf(added, key), now, rs[n].1);
      }
    }
  }

  /** How a session's history may move on: every series as `SeriesLater` says. */
  ghost predicate Later(h: History, k: History, t: nat, u: nat) {
    && SeriesLater(h.system, k.system, t, u)
    && forall key :: SeriesLater(PointsOf(h.gpus, key), PointsOf(k.gpus, key), t, u)
  }

  lemma LaterOrder(h: History, k: History, t: nat, u: nat)
    requires Later(h, k, t, u)
    ensures t <= u
  {
  }

  /** Recording a reading, at any time not before the last one, keeps the invariant and
      changes no bucket but the newest. */
  lemma RecordMovesOn(h: History, before: nat, now: nat, s: Sample)
    requires Valid(h, before) && before <= now
    ensures Valid(Record(h, now, s), now)
    ensures Later(h, Record(h, now, s), BucketStart(before), BucketStart(now))
  {
    var k := Record(h, now, s);
    NoSampleGrows(h.system, before, now);
    AddReadingGrows(h.system, h.system, now, s.system);
    var q := AddReading(h.system, now, s.system);
    SeriesMovesOn(h.system, q, before, now);
    SystemNewest(q, now);
    AddToGpusGrows(h.gpus, before, now, s.gpus, "");
    assert DistinctKeys(k.gpus) by {
      TrimGpusDistinct(AddToGpus(h.gpus, now, s.gpus), now);
    }
    forall key
      ensures SeriesOk(PointsOf(k.gpus, key), now)
      ensures HasKey(k.gpus, key) <==> PointsOf(k.gpus, key) != []
      ensures SeriesLater(PointsOf(h.gpus, key), PointsOf(k.gpus, key), BucketStart(before), BucketStart(now))
    {
      AddToGpusGrows(h.gpus, before, now, s.gpus, key);
      TrimGpusPoints(AddToGpus(h.gpus, now, s.gpus), now, key);
      SeriesMovesOn(PointsOf(h.gpus, key), PointsOf(AddToGpus(h.gpus, now, s.gpus), key), before, now);
    }
  }

  lemma SystemNewest(q: seq<Point>, now: nat)
    requires Recording(q, BucketStart(now)) && q != [] && Last(q).at == BucketStart(now)
    ensures Trim(q, now) != [] && Last(Trim(q, now)) == Last(q)
  {
    TrimHas(q, now);
    LastIsLatest(q);
    BucketStartOrder(now, now);
    assert Last(q) in Trim(q, now);
    LastByTime(Trim(q, now), Last(q));
  }

  /** The first reading of a session. */
  lemma FirstRecord(now: nat, s: Sample)
    ensures Valid(Record(EMPTY, now, s), now)
  {
    assert Grown([], [], BucketStart(now));
    AddReadingGrows([], [], now, s.system);
    SystemNewest(AddReading([], now, s.system), now);
    TrimHas(AddReading([], now, s.system), now);
    BucketStartOrder(now, now);
    var added := AddToGpus([], now, s.gpus);
    AddToNone(now, s.gpus, "");
    TrimGpusDistinct(added, now);
    forall key
      ensures SeriesOk(PointsOf(Record(EMPTY, now, s).gpus, key), now)
      ensures HasKey(Record(EMPTY, now, s).gpus, key) <==> PointsOf(Record(EMPTY, now, s).gpus, key) != []
    {
      AddToNone(now, s.gpus, key);
      TrimGpusPoints(added, now, key);
      TrimHas(PointsOf(added, key), now);
    }
  }

  lemma {:induction false} AddToNone(now: nat, rs: seq<(string, Reading)>, key: string)
    ensures DistinctKeys(AddToGpus([], now, rs))
    ensures Recording(PointsOf(AddToGpus([], now, rs), key), BucketStart(now))
  {
    if rs != [] {
      var n := |rs| - 1;
      AddToNone(now, rs[..n], key);
      var added := AddToGpus([], now, rs[..n]);
      AddToGpuPoints(added, rs[n].0, now, rs[n].1, key);
      AddToGpuDistinct(added, rs[n].0, now, rs[n].1);
      if rs[n].0 == key {
        var p := PointsOf(added, key);
        assert Grown(p, p, BucketStart(now));
        AddReadingGrows(p, p, now, rs[n].1);
      }
    }
  }
}
