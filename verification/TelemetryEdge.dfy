/** The bucket exactly one window older than the newest: the client keeps it, and the
    backend may have dropped it. This is when. */
module TelemetryEdge {
  import opened TelemetryPoints
  import opened TelemetryServer

  predicate HasAt(ps: seq<Point>, b: int) {
    exists x :: x in ps && x.at == b
  }

  /** Every bucket newer than the edge is there. */
  ghost predicate Full(ps: seq<Point>, t: nat) {
    forall b: nat | t - WINDOW < b <= t && b % BUCKET == 0 :: HasAt(ps, b)
  }

  /** The backend has dropped whatever it had on the edge: by age, when the clock has moved on
      from the start of the newest bucket, or by number, when the rest of the window is full. */
  ghost predicate Gone(ps: seq<Point>, now: nat) {
    now > BucketStart(now) || Full(ps, BucketStart(now))
  }

  // --- How many buckets fit ---

  lemma AlignedAbove(x: nat, lo: int)
    requires x % BUCKET == 0 && lo % BUCKET == 0 && x > lo
    ensures x >= lo + BUCKET
  {
  }

  lemma IndexAt(ps: seq<Point>, t: nat, slot: nat) returns (k: nat)
    requires Full(ps, t) && t - WINDOW < slot <= t && slot % BUCKET == 0
    ensures k < |ps| && ps[k].at == slot
  {
    assert HasAt(ps, slot);
    k :| 0 <= k < |ps| && ps[k].at == slot;
  }

  lemma {:induction false} SlotAt(ps: seq<Point>, t: nat, i: nat)
    requires Recording(ps, t) && t % BUCKET == 0 && t >= WINDOW && Full(ps, t) && i < |ps|
    requires forall x | x in ps :: x.at > t - WINDOW
    ensures i < MAX_POINTS && ps[i].at == t - WINDOW + BUCKET * (i + 1)
  {
    assert ps[i] in ps && ps[i].at % BUCKET == 0;
    var slot := t - WINDOW + BUCKET * (i + 1);
    if i == 0 {
      AlignedAbove(ps[0].at, t - WINDOW);
    } else {
      SlotAt(ps, t, i - 1);
      InOrderByTime(ps, i, i - 1);
      AlignedAbove(ps[i].at, ps[i - 1].at);
    }
    assert slot <= ps[i].at <= t;
    var k := IndexAt(ps, t, slot);
    InOrderByTime(ps, k, i);
    if i > 0 {
      InOrderByTime(ps, k, i - 1);
    }
    hide Full, Recording;
  }

  lemma InOrderByTime(ps: seq<Point>, k: nat, i: nat)
    requires Sorted(ps) && k < |ps| && i < |ps|
    ensures ps[k].at <= ps[i].at <==> k <= i
  {
  }

  /** Inside the window there are at most as many buckets as the backend keeps, and that many
      exactly when none is missing. */
  lemma FullByCount(ps: seq<Point>, t: nat)
    requires Recording(ps, t) && t % BUCKET == 0 && t >= WINDOW
    requires forall x | x in ps :: x.at > t - WINDOW
    ensures |ps| <= MAX_POINTS && (Full(ps, t) <==> |ps| == MAX_POINTS)
  {
    if ps != [] {
      assert ps[0] in ps && ps[|ps| - 1] in ps;
      Spread(ps, 0, |ps| - 1);
    }
    if Full(ps, t) {
      FullCounts(ps, t);
    } else if |ps| == MAX_POINTS {
      CountFills(ps, t);
    }
    hide Full, Recording;
  }

  lemma FullCounts(ps: seq<Point>, t: nat)
    requires Recording(ps, t) && t % BUCKET == 0 && t >= WINDOW && Full(ps, t)
    requires forall x | x in ps :: x.at > t - WINDOW
    ensures |ps| == MAX_POINTS
  {
    var k := IndexAt(ps, t, t);
    SlotAt(ps, t, |ps| - 1);
    SlotAt(ps, t, k);
    assert ps[|ps| - 1] in ps;
    hide Full, Recording;
  }

  lemma CountFills(ps: seq<Point>, t: nat)
    requires Recording(ps, t) && t % BUCKET == 0 && t >= WINDOW && |ps| == MAX_POINTS
    requires forall x | x in ps :: x.at > t - WINDOW
    ensures Full(ps, t)
  {
    assert ps[0] in ps && ps[MAX_POINTS - 1] in ps;
    forall b: nat | t - WINDOW < b <= t && b % BUCKET == 0 ensures HasAt(ps, b) {
      var i := (b - (t - WINDOW)) / BUCKET - 1;
      Spread(ps, 0, i);
      Spread(ps, i, MAX_POINTS - 1);
      assert ps[i] in ps && ps[i].at == b;
    }
  }

  // --- How a series moves on, at the edge ---

  /** What was on the new edge is still there, unless the backend has dropped it; and within
      one bucket what is gone stays gone. */
  ghost predicate EdgeLater(p: seq<Point>, q: seq<Point>, before: nat, now: nat) {
    var t, u := BucketStart(before), BucketStart(now);
    && (forall x | x in p && x.at == u - WINDOW && x.at < t :: x in q || Gone(q, now))
    && (HasAt(p, u - WINDOW) && u - WINDOW == t ==> HasAt(q, t) || Gone(q, now))
    && (t == u && Gone(p, before) ==> Gone(q, now))
  }

  ghost predicate EdgeKept(p: seq<Point>, now: nat) {
    Gone(p, now) ==> !HasAt(p, BucketStart(now) - WINDOW)
  }

  /** What the client holds on the edge the backend has too, unless it has dropped it. */
  ghost predicate EdgeAgree(m: seq<Point>, p: seq<Point>, now: nat) {
    forall x | x in m && x.at == BucketStart(now) - WINDOW :: x in p || Gone(p, now)
  }

  /** Whether the edges are equal, from what can be seen: when the clock is inside the newest
      bucket, exactly if nothing is held on the edge; when it is at its start, also if a
      bucket is missing from the rest of the window. */
  lemma EdgeIsExact(m: seq<Point>, p: seq<Point>, now: nat)
    requires SeriesAgree(m, p, BucketStart(now)) && SeriesOk(p, now) && EdgeAgree(m, p, now) && EdgeKept(p, now)
    ensures var edge := BucketStart(now) - WINDOW;
      From(m, edge) == From(p, edge) <==> !HasAt(m, edge) || (now % BUCKET == 0 && |From(m, edge + 1)| < MAX_POINTS)
  {
    var t := BucketStart(now);
    var edge := t - WINDOW;
    AgreeIsEquality(m, p, t);
    EdgesEqual(m, p, t);
    if edge >= 0 {
      BucketStartOrder(now, now);
      InsideCount(p, now);
    }
    hide From, Full, SeriesAgree, SeriesOk;
  }

  /** On the edge the client holds all the backend has, so the two are equal when the backend
      has all the client holds. */
  lemma EdgesEqual(m: seq<Point>, p: seq<Point>, t: nat)
    requires SeriesAgree(m, p, t) && SeriesKept(p, t)
    ensures From(m, t - WINDOW) == From(p, t - WINDOW) <==> (HasAt(m, t - WINDOW) ==> HasAt(p, t - WINDOW))
  {
    var edge := t - WINDOW;
    FromHas(m, edge);
    FromHas(p, edge);
    if HasAt(m, edge) && HasAt(p, edge) {
      OneAt(m, p, edge);
    }
    if HasAt(m, edge) ==> HasAt(p, edge) {
      forall x ensures x in From(m, edge) <==> x in From(p, edge) {
      }
      SortedUnique(From(m, edge), From(p, edge));
    } else {
      var x :| x in m && x.at == edge;
      assert x in From(m, edge);
    }
  }

  lemma OneAt(m: seq<Point>, p: seq<Point>, b: int)
    requires Sorted(m) && (forall x | x in p :: x in m) && HasAt(p, b)
    ensures forall x | x in m && x.at == b :: x in p
  {
    var y :| y in p && y.at == b;
    forall x | x in m && x.at == b ensures x == y {
      var i :| 0 <= i < |m| && m[i] == x;
      var j :| 0 <= j < |m| && m[j] == y;
      InOrderByTime(m, i, j);
      InOrderByTime(m, j, i);
    }
  }

  lemma InsideCount(p: seq<Point>, now: nat)
    requires SeriesOk(p, now) && BucketStart(now) >= WINDOW
    ensures |From(p, BucketStart(now) - WINDOW + 1)| <= MAX_POINTS
    ensures Full(p, BucketStart(now)) <==> |From(p, BucketStart(now) - WINDOW + 1)| == MAX_POINTS
  {
    var t := BucketStart(now);
    var inside := From(p, t - WINDOW + 1);
    BucketStartOrder(now, now);
    FromHas(p, t - WINDOW + 1);
    FromRecording(p, t, t - WINDOW + 1);
    FullByCount(inside, t);
    assert Full(p, t) <==> Full(inside, t) by {
      forall b: nat | t - WINDOW < b <= t ensures HasAt(p, b) <==> HasAt(inside, b) {
        if HasAt(p, b) {
          var x :| x in p && x.at == b;
          assert x in inside;
        }
      }
    }
  }

  lemma FromRecording(p: seq<Point>, t: nat, lo: int)
    requires Recording(p, t)
    ensures Recording(From(p, lo), t)
  {
    FromHas(p, lo);
    forall i | 0 <= i < |From(p, lo)| ensures From(p, lo)[i].at % BUCKET == 0 {
      assert From(p, lo)[i] in p;
    }
  }

  // --- The backend keeps to it ---

  /** A series about to be cut by number is full. */
  lemma CapDropsWhenFull(kept: seq<Point>, t: nat)
    requires Recording(kept, t) && t % BUCKET == 0 && |kept| > MAX_POINTS
    requires forall x | x in kept :: x.at >= t - WINDOW
    ensures Full(Cap(kept), t) && |Cap(kept)| == MAX_POINTS
  {
    assert kept[0] in kept && kept[|kept| - 1] in kept;
    Spread(kept, 0, |kept| - 1);
    SuffixRecording(kept, 1, t);
    var inside := kept[1..];
    assert kept[1] in kept;
    Spread(kept, 0, 1);
    forall x | x in inside ensures x.at > t - WINDOW {
      var i :| 0 <= i < |inside| && inside[i] == x;
      assert x == kept[i + 1];
      Spread(kept, 0, i + 1);
    }
    FullByCount(inside, t);
  }

  lemma CapIsShort(kept: seq<Point>)
    ensures |Cap(kept)| <= MAX_POINTS
    ensures |kept| <= MAX_POINTS ==> Cap(kept) == kept
  {
  }

  /** Trimming drops the edge only by age or when the rest of the window is full, and then it
      does drop it. */
  lemma TrimAtEdge(q: seq<Point>, now: nat)
    requires Recording(q, BucketStart(now))
    ensures forall x | x in q && x !in Trim(q, now) && x.at == BucketStart(now) - WINDOW :: Gone(Trim(q, now), now)
    ensures EdgeKept(Trim(q, now), now)
  {
    var t, r := BucketStart(now), Trim(q, now);
    var cutoff := if now < WINDOW then 0 else now - WINDOW;
    var kept := DropOld(q, cutoff);
    BucketStartOrder(now, now);
    TrimHas(q, now);
    DropOldHas(q, cutoff);
    DropKeepsRecording(q, cutoff, t);
    assert r == Cap(kept);
    hide DropOld, Trim;
    CapIsShort(kept);
    if |kept| > MAX_POINTS {
      CapDropsWhenFull(kept, t);
    }
    hide Cap;
    KeptWhenGone(r, now);
  }

  lemma KeptWhenGone(r: seq<Point>, now: nat)
    requires Recording(r, BucketStart(now)) && |r| <= MAX_POINTS && forall x | x in r :: x.at >= now - WINDOW
    ensures EdgeKept(r, now)
  {
    var t := BucketStart(now);
    var edge := t - WINDOW;
    BucketStartOrder(now, now);
    if now == t && HasAt(r, edge) {
      var inside := r[1..];
      var x :| x in r && x.at == edge;
      var i :| 0 <= i < |r| && r[i] == x;
      assert r[0] in r;
      InOrderByTime(r, i, 0);
      SuffixRecording(r, 1, t);
      forall y | y in inside ensures y.at > edge {
        var j :| 0 <= j < |inside| && inside[j] == y;
        assert y == r[j + 1];
      }
      FullByCount(inside, t);
      FullOfRest(r, t);
    }
  }

  lemma FullOfRest(r: seq<Point>, t: nat)
    requires r != [] && r[0].at == t - WINDOW
    ensures Full(r, t) <==> Full(r[1..], t)
  {
    forall b: nat | t - WINDOW < b ensures HasAt(r, b) <==> HasAt(r[1..], b) {
      assert r == [r[0]] + r[1..];
    }
  }

  /** One series over one record. */
  lemma EdgeMovesOn(p: seq<Point>, q: seq<Point>, before: nat, now: nat)
    requires before <= now && SeriesOk(p, before) && Grown(p, q, BucketStart(now))
    ensures EdgeLater(p, Trim(q, now), before, now) && EdgeKept(Trim(q, now), now)
  {
    var t, u, r := BucketStart(before), BucketStart(now), Trim(q, now);
    BucketStartOrder(before, now);
    TrimHas(q, now);
    TrimAtEdge(q, now);
    hide Trim, Full;
    if HasAt(p, u - WINDOW) && u - WINDOW == t {
      var x :| x in p && x.at == t;
      assert x in q;
    }
    if t == u && Full(p, u) {
      FullStays(p, q, r, u);
    }
  }

  lemma FullStays(p: seq<Point>, q: seq<Point>, r: seq<Point>, u: nat)
    requires Grown(p, q, u) && Full(p, u) && forall x | x in q && x !in r :: x.at <= u - WINDOW
    ensures Full(r, u)
  {
    forall b: nat | u - WINDOW < b <= u && b % BUCKET == 0 ensures HasAt(r, b) {
      assert HasAt(p, b);
      var x :| x in p && x.at == b;
      if b < u {
        assert x in q && x in r;
      } else {
        var y :| y in q && y.at == u;
        assert y in r;
      }
    }
  }

  lemma EdgeLaterReflexive(p: seq<Point>, now: nat)
    ensures EdgeLater(p, p, now, now)
  {
  }

  lemma EdgeLaterChains(p: seq<Point>, q: seq<Point>, r: seq<Point>, a: nat, b: nat, c: nat)
    requires SeriesLater(p, q, BucketStart(a), BucketStart(b)) && SeriesLater(q, r, BucketStart(b), BucketStart(c))
    requires EdgeLater(p, q, a, b) && EdgeLater(q, r, b, c)
    ensures EdgeLater(p, r, a, c)
  {
    hide Gone;
    var t, u, v := BucketStart(a), BucketStart(b), BucketStart(c);
    hide BucketStart;
    if u == v {
      if HasAt(p, v - WINDOW) && v - WINDOW == t {
        assert HasAt(q, t) || Gone(q, b);
      }
    } else if HasAt(p, v - WINDOW) && v - WINDOW == t {
      var x :| x in p && x.at == t;
      var y :| y in q && y.at == t;
      assert HasAt(q, t);
      assert t < u ==> y in r || Gone(r, c);
    }
  }

  // --- The client keeps to it ---

  lemma MergeAtEdge(m: seq<Point>, p: seq<Point>, q: seq<Point>, before: nat, now: nat, since: nat)
    requires SeriesAgree(m, p, BucketStart(before)) && SeriesOk(p, before) && SeriesOk(q, now)
    requires SeriesLater(p, q, BucketStart(before), BucketStart(now)) && EdgeLater(p, q, before, now) && EdgeAgree(m, p, before)
    requires since <= BucketStart(before) && before <= now
    ensures EdgeAgree(MergePoints(m, From(q, since), BucketStart(now) - WINDOW), q, now)
  {
    var t, u := BucketStart(before), BucketStart(now);
    var edge, next := u - WINDOW, From(q, since);
    var merged := MergePoints(m, next, edge);
    FromHas(q, since);
    FromHas(m, edge);
    if next != [] {
      BetweenHas(m, edge, next[0].at);
      FirstIsEarliest(next);
    }
    hide Gone, From, Between, Recording;
    forall x | x in merged && x.at == edge && x !in q ensures Gone(q, now) {
      assert x in m;
      assert next != [] ==> x.at < next[0].at;
      if x in p {
        if x.at == t {
          assert HasAt(p, edge);
          NotAtNext(q, next, t, edge, since);
        }
      }
    }
  }

  lemma NotAtNext(q: seq<Point>, next: seq<Point>, t: nat, edge: int, since: nat)
    requires since <= t == edge && (forall y | y in q && y.at >= since :: y in next)
    requires next != [] ==> forall y | y in next :: next[0].at <= y.at
    requires next != [] ==> edge < next[0].at
    ensures !HasAt(q, t)
  {
    if next == [] {
      assert forall y | y in q :: y !in next;
    }
  }
}
