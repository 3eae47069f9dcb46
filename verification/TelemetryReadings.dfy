/** What the backend's buckets hold: over any run of recordings each bucket has exactly the
    readings of its own five seconds, and none of the last hour is missing
    (`src-tauri/src/ssh/telemetry_history.rs:161-244`). */
module TelemetryReadings {
  import opened TelemetryPoints
  import opened TelemetryServer

  /** The readings of the five seconds from `b` on, in order. */
  function ReadIn(entries: seq<(nat, Reading)>, b: nat): seq<Reading> {
    if entries == [] then []
    else
      var n := |entries| - 1;
      ReadIn(entries[..n], b) + if b <= entries[n].0 < b + 5 then [entries[n].1] else []
  }

  /** The multiple of five seconds at or before a time. */
  function Slot(time: nat): nat {
    time - time % 5
  }

  /** Bucket `b` is in the series and covers `time`. */
  ghost predicate Covers(ps: seq<Point>, b: nat, time: nat) {
    HasBucket(ps, b) && b <= time < b + 5
  }

  ghost predicate HasBucket(ps: seq<Point>, b: nat) {
    exists x :: x in ps && x.at == b
  }

  /** Every bucket starts at a multiple of five seconds and holds what was read in it; and every
      reading of the hour before the newest bucket has its bucket. */
  ghost predicate HoldsReadings(ps: seq<Point>, entries: seq<(nat, Reading)>, now: nat) {
    && (forall x | x in ps :: x.at % 5 == 0 && x.readings == ReadIn(entries, x.at))
    && (forall k | 0 <= k < |entries| && Slot(entries[k].0) > Slot(now) - 3600 ::
          Covers(ps, Slot(entries[k].0), entries[k].0))
  }

  /** The same while a series is being recorded. */
  ghost predicate Holds(ps: seq<Point>, entries: seq<(nat, Reading)>, now: nat) {
    && Recording(ps, BucketStart(now))
    && (forall k | 0 <= k < |entries| :: entries[k].0 <= now)
    && HoldsReadings(ps, entries, now)
  }

  lemma {:induction false} ReadInNone(entries: seq<(nat, Reading)>, b: nat)
    requires forall k | 0 <= k < |entries| :: !(b <= entries[k].0 < b + 5)
    ensures ReadIn(entries, b) == []
  {
    if entries != [] {
      ReadInNone(entries[..|entries| - 1], b);
    }
  }

  lemma ReadInSnoc(entries: seq<(nat, Reading)>, time: nat, r: Reading, b: nat)
    ensures ReadIn(entries + [(time, r)], b) == ReadIn(entries, b) + if b <= time < b + 5 then [r] else []
  {
    assert (entries + [(time, r)])[..|entries|] == entries;
  }

  lemma HoldsLater(ps: seq<Point>, entries: seq<(nat, Reading)>, before: nat, now: nat)
    requires Holds(ps, entries, before) && before <= now
    ensures Holds(ps, entries, now)
  {
    BucketStartOrder(before, now);
    hide ReadIn, Covers;
  }

  lemma NewestIsLast(ps: seq<Point>, start: nat)
    requires Sorted(ps) && HasBucket(ps, start) && forall x | x in ps :: x.at <= start
    ensures ps != [] && Last(ps).at == start
  {
    var x :| x in ps && x.at == start;
    LastByTime(ps, x);
  }

  lemma AddedHas(ps: seq<Point>, now: nat, r: Reading)
    ensures HasBucket(AddReading(ps, now, r), BucketStart(now))
    ensures forall b | HasBucket(ps, b) :: HasBucket(AddReading(ps, now, r), b)
  {
    var start, after := BucketStart(now), AddReading(ps, now, r);
    assert Last(after).at == start && Last(after) in after;
    forall b | HasBucket(ps, b) ensures HasBucket(after, b) {
      var x :| x in ps && x.at == b;
      var i :| 0 <= i < |ps| && ps[i] == x;
      assert after[i].at == b;
    }
  }

  lemma AddCovers(ps: seq<Point>, entries: seq<(nat, Reading)>, now: nat, r: Reading, k: nat)
    requires Holds(ps, entries, now) && k <= |entries|
    requires var time := (entries + [(now, r)])[k].0; Slot(time) > Slot(now) - 3600
    ensures var time := (entries + [(now, r)])[k].0; Covers(AddReading(ps, now, r), Slot(time), time)
  {
    BucketStartOrder(now, now);
    AddedHas(ps, now, r);
    hide AddReading, ReadIn, HasBucket, Recording;
    if k < |entries| {
      assert (entries + [(now, r)])[k] == entries[k];
      assert Covers(ps, Slot(entries[k].0), entries[k].0);
    }
  }

  /** A reading goes to its own bucket, behind those already there. */
  lemma AddHolds(ps: seq<Point>, entries: seq<(nat, Reading)>, now: nat, r: Reading)
    requires Holds(ps, entries, now)
    ensures Holds(AddReading(ps, now, r), entries + [(now, r)], now)
  {
    var after, all := AddReading(ps, now, r), entries + [(now, r)];
    assert Grown(ps, ps, BucketStart(now));
    AddReadingGrows(ps, ps, now, r);
    hide AddReading, ReadIn, Recording, Covers, BucketStart, Slot;
    forall x | x in after ensures x.at % 5 == 0 && x.readings == ReadIn(all, x.at) {
      ReadInSnoc(entries, now, r, x.at);
      BucketHolds(ps, entries, now, r, x);
    }
    forall k | 0 <= k < |all| && Slot(all[k].0) > Slot(now) - 3600
      ensures Covers(after, Slot(all[k].0), all[k].0)
    {
      AddCovers(ps, entries, now, r, k);
    }
  }

  /** An older bucket does not cover the time now. */
  lemma OlderBucket(ps: seq<Point>, entries: seq<(nat, Reading)>, now: nat, x: Point)
    requires Holds(ps, entries, now) && x in ps
    ensures x.at % 5 == 0 && x.at <= BucketStart(now) && x.readings == ReadIn(entries, x.at)
    ensures x.at <= now < x.at + 5 <==> x.at == BucketStart(now)
  {
    BucketStartOrder(now, now);
    hide ReadIn, Covers;
  }

  lemma BucketHolds(ps: seq<Point>, entries: seq<(nat, Reading)>, now: nat, r: Reading, x: Point)
    requires Holds(ps, entries, now) && x in AddReading(ps, now, r)
    ensures x.at % 5 == 0
    ensures x.readings == ReadIn(entries, x.at) + if x.at <= now < x.at + 5 then [r] else []
  {
    if ps != [] && Last(ps).at == BucketStart(now) {
      AddedInLast(ps, now, r, x);
      OlderBucket(ps, entries, now, Last(ps));
      if x in ps {
        OlderBucket(ps, entries, now, x);
      }
      hide Holds, ReadIn, AddReading, BucketStart;
    } else {
      AddedBehind(ps, now, r, x);
      StartCovers(now);
      NoneYet(ps, entries, now);
      if x in ps {
        OlderBucket(ps, entries, now, x);
        NotNewest(ps, entries, now, x);
      }
      hide Holds, ReadIn, AddReading, BucketStart;
    }
  }

  lemma StartCovers(now: nat)
    ensures BucketStart(now) % 5 == 0 && BucketStart(now) <= now < BucketStart(now) + 5
  {
    BucketStartOrder(now, now);
  }

  lemma AddedInLast(ps: seq<Point>, now: nat, r: Reading, x: Point)
    requires ps != [] && Sorted(ps) && Last(ps).at == BucketStart(now) && x in AddReading(ps, now, r)
    ensures Last(ps) in ps
    ensures (x in ps && x.at < BucketStart(now)) || x == Point(BucketStart(now), Last(ps).readings + [r])
  {
    var grown := Point(BucketStart(now), Last(ps).readings + [r]);
    assert AddReading(ps, now, r) == ps[..|ps| - 1] + [grown];
    if x in ps[..|ps| - 1] {
      FrontIsOlder(ps, BucketStart(now), x);
    }
  }

  lemma AddedBehind(ps: seq<Point>, now: nat, r: Reading, x: Point)
    requires !(ps != [] && Last(ps).at == BucketStart(now)) && x in AddReading(ps, now, r)
    ensures x in ps || x == Point(BucketStart(now), [r])
  {
    assert AddReading(ps, now, r) == ps + [Point(BucketStart(now), [r])];
  }

  lemma FrontIsOlder(ps: seq<Point>, start: nat, x: Point)
    requires Sorted(ps) && ps != [] && Last(ps).at == start && x in ps[..|ps| - 1]
    ensures x.at < start && x in ps
  {
    var i :| 0 <= i < |ps| - 1 && ps[i] == x;
  }

  lemma NotNewest(ps: seq<Point>, entries: seq<(nat, Reading)>, now: nat, x: Point)
    requires Holds(ps, entries, now) && !(ps != [] && Last(ps).at == BucketStart(now)) && x in ps
    ensures x.at != BucketStart(now)
  {
    if x.at == BucketStart(now) {
      assert HasBucket(ps, x.at);
      NewestIsLast(ps, x.at);
      assert false;
    }
  }

  lemma HasNewest(ps: seq<Point>, entries: seq<(nat, Reading)>, now: nat, k: nat)
    requires Holds(ps, entries, now) && k < |entries| && BucketStart(now) <= entries[k].0 < BucketStart(now) + 5
    ensures ps != [] && Last(ps).at == BucketStart(now)
  {
    BucketStartOrder(now, now);
    assert Slot(entries[k].0) == BucketStart(now);
    assert Covers(ps, BucketStart(now), entries[k].0);
    NewestIsLast(ps, BucketStart(now));
  }

  lemma NoneYet(ps: seq<Point>, entries: seq<(nat, Reading)>, now: nat)
    requires Holds(ps, entries, now) && !(ps != [] && Last(ps).at == BucketStart(now))
    ensures ReadIn(entries, BucketStart(now)) == []
  {
    var start := BucketStart(now);
    forall k | 0 <= k < |entries| ensures !(start <= entries[k].0 < start + 5) {
      if start <= entries[k].0 < start + 5 {
        HasNewest(ps, entries, now, k);
        assert false;
      }
    }
    ReadInNone(entries, start);
  }

  /** Trimming takes no bucket of the last hour. */
  lemma TrimHolds(ps: seq<Point>, entries: seq<(nat, Reading)>, now: nat)
    requires Holds(ps, entries, now)
    ensures Holds(Trim(ps, now), entries, now)
  {
    var after := Trim(ps, now);
    TrimHas(ps, now);
    hide Trim, ReadIn;
    forall k | 0 <= k < |entries| && Slot(entries[k].0) > Slot(now) - 3600
      ensures Covers(after, Slot(entries[k].0), entries[k].0)
    {
      var b := Slot(entries[k].0);
      assert Covers(ps, b, entries[k].0);
      var x :| x in ps && x.at == b;
      assert x in after;
    }
  }

  // --- A run of recordings ---

  /** The recordings of a session, on a history that was empty. */
  function RecordAll(samples: seq<(nat, Sample)>): History {
    if samples == [] then EMPTY
    else
      var n := |samples| - 1;
      Record(RecordAll(samples[..n]), samples[n].0, samples[n].1)
  }

  function SystemEntries(samples: seq<(nat, Sample)>): seq<(nat, Reading)> {
    if samples == [] then []
    else
      var n := |samples| - 1;
      SystemEntries(samples[..n]) + [(samples[n].0, samples[n].1.system)]
  }

  /** What one sample says of a GPU. */
  function GpuEntries(now: nat, rs: seq<(string, Reading)>, key: string): seq<(nat, Reading)> {
    if rs == [] then []
    else
      var n := |rs| - 1;
      GpuEntries(now, rs[..n], key) + if rs[n].0 == key then [(now, rs[n].1)] else []
  }

  function KeyEntries(samples: seq<(nat, Sample)>, key: string): seq<(nat, Reading)> {
    if samples == [] then []
    else
      var n := |samples| - 1;
      KeyEntries(samples[..n], key) + GpuEntries(samples[n].0, samples[n].1.gpus, key)
  }

  predicate InTimeOrder(samples: seq<(nat, Sample)>) {
    forall i, j | 0 <= i < j < |samples| :: samples[i].0 <= samples[j].0
  }

  lemma OneGpuHolds(gpus: seq<Series>, entries: seq<(nat, Reading)>, now: nat, k: string, r: Reading, key: string)
    requires DistinctKeys(gpus) && Holds(PointsOf(gpus, key), entries, now)
    ensures DistinctKeys(AddToGpu(gpus, k, now, r))
    ensures Holds(PointsOf(AddToGpu(gpus, k, now, r), key), entries + (if k == key then [(now, r)] else []), now)
  {
    hide Holds, AddReading, DistinctKeys;
    AddToGpuPoints(gpus, k, now, r, key);
    AddToGpuDistinct(gpus, k, now, r);
    hide PointsOf, AddToGpu;
    if k == key {
      AddHolds(PointsOf(gpus, key), entries, now, r);
    } else {
      assert entries + [] == entries;
    }
  }

  lemma {:induction false} GpusHold(gpus: seq<Series>, entries: seq<(nat, Reading)>, now: nat, rs: seq<(string, Reading)>, key: string)
    requires DistinctKeys(gpus) && Holds(PointsOf(gpus, key), entries, now)
    ensures DistinctKeys(AddToGpus(gpus, now, rs))
    ensures Holds(PointsOf(AddToGpus(gpus, now, rs), key), entries + GpuEntries(now, rs, key), now)
  {
    hide Holds, PointsOf, DistinctKeys, AddToGpu;
    if rs == [] {
      assert entries + [] == entries;
    } else {
      var n := |rs| - 1;
      GpusHold(gpus, entries, now, rs[..n], key);
      var own, last := GpuEntries(now, rs[..n], key), if rs[n].0 == key then [(now, rs[n].1)] else [];
      assert entries + (own + last) == entries + own + last;
      OneGpuHolds(AddToGpus(gpus, now, rs[..n]), entries + own, now, rs[n].0, rs[n].1, key);
    }
  }

  lemma EmptyHolds(now: nat)
    ensures Holds([], [], now)
  {
  }

  lemma {:induction false} RunHolds(samples: seq<(nat, Sample)>, now: nat, key: string)
    requires InTimeOrder(samples) && (samples != [] ==> samples[|samples| - 1].0 <= now)
    ensures var h := RecordAll(samples);
      && DistinctKeys(h.gpus)
      && Holds(h.system, SystemEntries(samples), now)
      && Holds(PointsOf(h.gpus, key), KeyEntries(samples, key), now)
    decreases |samples|
  {
    hide Holds;
    if samples == [] {
      EmptyHolds(now);
    } else {
      var n := |samples| - 1;
      var time, s, before := samples[n].0, samples[n].1, RecordAll(samples[..n]);
      RunHolds(samples[..n], time, key);
      AddHolds(before.system, SystemEntries(samples[..n]), time, s.system);
      TrimHolds(AddReading(before.system, time, s.system), SystemEntries(samples), time);
      GpusHold(before.gpus, KeyEntries(samples[..n], key), time, s.gpus, key);
      TrimGpusDistinct(AddToGpus(before.gpus, time, s.gpus), time);
      TrimGpusPoints(AddToGpus(before.gpus, time, s.gpus), time, key);
      TrimHolds(PointsOf(AddToGpus(before.gpus, time, s.gpus), key), KeyEntries(samples, key), time);
      var h := RecordAll(samples);
      HoldsLater(h.system, SystemEntries(samples), time, now);
      HoldsLater(PointsOf(h.gpus, key), KeyEntries(samples, key), time, now);
    }
  }

  /** Over every run of recordings, for the system and for every GPU: a bucket holds exactly the
      readings of its five seconds, in order, and no reading of the hour before the newest one
      is without its bucket. */
  lemma BucketsHoldReadings(samples: seq<(nat, Sample)>, key: string)
    requires samples != [] && InTimeOrder(samples)
    ensures var h, now := RecordAll(samples), samples[|samples| - 1].0;
      && HoldsReadings(h.system, SystemEntries(samples), now)
      && HoldsReadings(PointsOf(h.gpus, key), KeyEntries(samples, key), now)
  {
    RunHolds(samples, samples[|samples| - 1].0, key);
    hide HoldsReadings;
  }
}
