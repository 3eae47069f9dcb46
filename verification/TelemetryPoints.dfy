/** Bucketed readings in time order, and the per-series half of the argument that
    merging a delta gives what a full fetch would have given. */
module TelemetryPoints {
  const WINDOW := 3600
  const BUCKET := 5
  const MAX_POINTS := 720

  /** What one sample adds to a bucket. The averages a chart plots are computed from
      the readings a bucket has collected; only which readings those are matters here. */
  type Reading = int

  datatype Point = Point(at: nat, readings: seq<Reading>)

  ghost predicate Sorted(ps: seq<Point>) {
    forall i, j | 0 <= i < j < |ps| :: ps[i].at < ps[j].at
  }

  function Last(ps: seq<Point>): Point
    requires ps != []
  {
    ps[|ps| - 1]
  }

  /** The points from `lo` on and before `hi`. */
  function Between(ps: seq<Point>, lo: int, hi: int): seq<Point> {
    if ps == [] then []
    else if lo <= ps[0].at < hi then [ps[0]] + Between(ps[1..], lo, hi)
    else Between(ps[1..], lo, hi)
  }

  function From(ps: seq<Point>, lo: int): seq<Point> {
    if ps == [] then []
    else if lo <= ps[0].at then [ps[0]] + From(ps[1..], lo)
    else From(ps[1..], lo)
  }

  lemma {:induction false} BetweenHas(ps: seq<Point>, lo: int, hi: int)
    ensures forall p :: p in Between(ps, lo, hi) <==> p in ps && lo <= p.at < hi
    ensures Sorted(ps) ==> Sorted(Between(ps, lo, hi))
  {
    if ps != [] {
      BetweenHas(ps[1..], lo, hi);
      assert ps == [ps[0]] + ps[1..];
    }
  }

  lemma {:induction false} FromHas(ps: seq<Point>, lo: int)
    ensures forall p :: p in From(ps, lo) <==> p in ps && lo <= p.at
    ensures Sorted(ps) ==> Sorted(From(ps, lo))
  {
    if ps != [] {
      FromHas(ps[1..], lo);
      assert ps == [ps[0]] + ps[1..];
    }
  }

  /** In a series in time order the last point is the latest. */
  lemma LastByTime(ps: seq<Point>, x: Point)
    requires Sorted(ps) && x in ps && forall y | y in ps :: y.at <= x.at
    ensures Last(ps) == x
  {
    var i :| 0 <= i < |ps| && ps[i] == x;
    assert ps[|ps| - 1] in ps;
    assert forall j | 0 <= j < |ps| - 1 :: ps[j].at < ps[|ps| - 1].at;
  }

  lemma LastIsLatest(ps: seq<Point>)
    requires Sorted(ps) && ps != []
    ensures forall y | y in ps :: y.at <= Last(ps).at
  {
    forall y | y in ps
      ensures y.at <= Last(ps).at
    {
      var i :| 0 <= i < |ps| && ps[i] == y;
    }
  }

  lemma FromLast(ps: seq<Point>, lo: int)
    requires Sorted(ps) && From(ps, lo) != []
    ensures Last(From(ps, lo)) == Last(ps)
  {
    FromHas(ps, lo);
    LastIsLatest(ps);
    assert From(ps, lo)[0] in ps;
    LastByTime(From(ps, lo), Last(ps));
  }

  /** A series in time order is determined by its points. */
  lemma {:induction false} SortedUnique(a: seq<Point>, b: seq<Point>)
    requires Sorted(a) && Sorted(b) && forall p :: p in a <==> p in b
    ensures a == b
  {
    assert b == [] || b[0] in a;
    if a != [] {
      assert a[0] in b;
      assert b[0] in a;
      assert a[0] == b[0];
      assert a == [a[0]] + a[1..] && b == [b[0]] + b[1..];
      forall p
        ensures p in a[1..] <==> p in b[1..]
      {
        assert p in a <==> p in b;
      }
      SortedUnique(a[1..], b[1..]);
    }
  }

  /** The client's merge of one series. */
  function MergePoints(previous: seq<Point>, next: seq<Point>, cutoff: int): seq<Point> {
    if next == [] then From(previous, cutoff) else Between(previous, cutoff, next[0].at) + next
  }

  /** How a server series may move on while its newest time goes from `t` to `u`: a
      bucket older than `t` never changes and leaves only by age, and the bucket at
      `t` may change but stays until it is too old. */
  ghost predicate SeriesLater(p: seq<Point>, q: seq<Point>, t: nat, u: nat) {
    && t <= u
    && (forall x | x in q && x.at < t :: x in p)
    && (forall x | x in p && x.at < t :: x in q || x.at <= u - WINDOW)
    && (forall x | x in p && x.at == t :: t <= u - WINDOW || exists y :: y in q && y.at == t)
  }

  /** The client's points `m` against the server's `p`, whose newest time is `t`. */
  ghost predicate SeriesAgree(m: seq<Point>, p: seq<Point>, t: nat) {
    && Sorted(m)
    && (forall x | x in p :: x in m)
    && (forall x | x in m && x.at > t - WINDOW :: x in p)
    && (p != [] ==> m != [] && Last(m) == Last(p))
  }

  /** What the server keeps to: time order, and nothing outside its window. */
  ghost predicate SeriesKept(p: seq<Point>, t: nat) {
    Sorted(p) && forall x | x in p :: t - WINDOW <= x.at <= t
  }

  /** For a series, agreeing is equality of the two series on everything newer than the
      window's edge, in order and bucket by bucket. The edge is the subject of
      `TelemetryEdge`. */
  lemma AgreeIsEquality(m: seq<Point>, p: seq<Point>, t: nat)
    requires SeriesAgree(m, p, t) && SeriesKept(p, t)
    ensures From(m, t - WINDOW + 1) == From(p, t - WINDOW + 1)
  {
    FromHas(m, t - WINDOW + 1);
    FromHas(p, t - WINDOW + 1);
    SortedUnique(From(m, t - WINDOW + 1), From(p, t - WINDOW + 1));
  }

  lemma LaterTransitive(p: seq<Point>, q: seq<Point>, r: seq<Point>, t: nat, u: nat, v: nat)
    requires SeriesLater(p, q, t, u) && SeriesLater(q, r, u, v)
    ensures SeriesLater(p, r, t, v)
  {
    forall x | x in p && x.at == t && t > v - WINDOW
      ensures exists y :: y in r && y.at == t
    {
      var y :| y in q && y.at == t;
      if t < u {
        assert y in r;
      }
    }
  }

  /** Merging a delta into a series that agreed with an earlier server state makes it
      agree with the later one, whenever the delta starts no later than the newest
      time of the earlier state. */
  lemma MergeSeries(m: seq<Point>, p: seq<Point>, q: seq<Point>, t: nat, u: nat, since: nat)
    requires SeriesAgree(m, p, t) && SeriesKept(p, t) && SeriesLater(p, q, t, u) && SeriesKept(q, u)
    requires since <= t
    ensures SeriesAgree(MergePoints(m, From(q, since), u - WINDOW), q, u)
  {
    var next := From(q, since);
    var cutoff := u - WINDOW;
    FromHas(q, since);
    if next == [] {
      MergeQuiet(m, p, q, t, u, since);
    } else {
      MergeSorted(m, next, cutoff);
      MergeKeeps(m, p, q, t, u, since);
      MergeAddsNothing(m, p, q, t, u, since);
      FromLast(q, since);
    }
  }

  lemma MergeSorted(m: seq<Point>, next: seq<Point>, cutoff: int)
    requires Sorted(m) && Sorted(next) && next != []
    ensures Sorted(MergePoints(m, next, cutoff)) && Last(MergePoints(m, next, cutoff)) == Last(next)
  {
    var kept := Between(m, cutoff, next[0].at);
    BetweenHas(m, cutoff, next[0].at);
    assert forall i | 0 <= i < |kept| :: kept[i] in kept;
  }

  /** Every server point is in the merge. */
  lemma MergeKeeps(m: seq<Point>, p: seq<Point>, q: seq<Point>, t: nat, u: nat, since: nat)
    requires (forall x | x in p :: x in m) && SeriesLater(p, q, t, u) && SeriesKept(q, u)
    requires since <= t && From(q, since) != []
    ensures forall x | x in q :: x in MergePoints(m, From(q, since), u - WINDOW)
  {
    var next := From(q, since);
    FromHas(q, since);
    BetweenHas(m, u - WINDOW, next[0].at);
    assert next[0] in next;
    forall x | x in q
      ensures x in MergePoints(m, next, u - WINDOW)
    {
      if x.at >= since {
        assert x in next;
      } else {
        assert x in p && x in m;
        assert x in Between(m, u - WINDOW, next[0].at);
      }
    }
  }

  /** Inside the window, every point of the merge is the server's. */
  lemma MergeAddsNothing(m: seq<Point>, p: seq<Point>, q: seq<Point>, t: nat, u: nat, since: nat)
    requires SeriesAgree(m, p, t) && SeriesKept(p, t) && SeriesLater(p, q, t, u) && SeriesKept(q, u)
    requires since <= t && From(q, since) != []
    ensures forall x | x in MergePoints(m, From(q, since), u - WINDOW) && x.at > u - WINDOW :: x in q
  {
    var next := From(q, since);
    FromHas(q, since);
    BetweenHas(m, u - WINDOW, next[0].at);
    if exists y :: y in q && y.at == t {
      var y :| y in q && y.at == t;
      assert y in next && next[0].at <= t;
    }
    forall x | x in MergePoints(m, next, u - WINDOW) && x.at > u - WINDOW
      ensures x in q
    {
      assert x in next || (x in m && x in p && x.at < next[0].at);
    }
  }

  /** A series with nothing new keeps what it has. */
  lemma MergeQuiet(m: seq<Point>, p: seq<Point>, q: seq<Point>, t: nat, u: nat, since: nat)
    requires SeriesAgree(m, p, t) && SeriesKept(p, t) && SeriesLater(p, q, t, u) && SeriesKept(q, u)
    requires since <= t && From(q, since) == []
    ensures SeriesAgree(From(m, u - WINDOW), q, u)
  {
    var kept := From(m, u - WINDOW);
    FromHas(q, since);
    FromHas(m, u - WINDOW);
    forall x | x in q
      ensures x in kept && x.at < t && x in p
    {
      assert x !in From(q, since);
    }
    forall y | y in q
      ensures y.at != t
    {
      assert y !in From(q, since);
    }
    assert forall x | x in kept && x.at > u - WINDOW :: x in p;
    if q != [] {
      LastIsLatest(q);
      assert Last(q) in kept;
      LastByTime(kept, Last(q));
    }
  }

  // --- When the server's history starts anew ---

  /** The client's points `m` hold the server's `p`, with nothing between them, but may go
      further back: to buckets of a history the server has dropped since. */
  ghost predicate SeriesCarries(m: seq<Point>, p: seq<Point>, t: nat) {
    && Sorted(m)
    && (forall x | x in p :: x in m)
    && (p == [] ==> m == [])
    && (p != [] ==> m != [] && Last(m) == Last(p) && forall x | x in m && x.at > t - WINDOW && x.at >= p[0].at :: x in p)
  }

  /** Nothing held inside the window is older than the server's first bucket. */
  ghost predicate NoLeftovers(m: seq<Point>, p: seq<Point>, t: nat) {
    p != [] ==> forall x | x in m && x.at > t - WINDOW :: x.at >= p[0].at
  }

  lemma FirstIsEarliest(p: seq<Point>)
    requires Sorted(p) && p != []
    ensures forall x | x in p :: p[0].at <= x.at
  {
  }

  /** Then the two agree exactly when nothing older is held inside the window. */
  lemma CarriesIsAgreement(m: seq<Point>, p: seq<Point>, t: nat)
    requires SeriesCarries(m, p, t) && SeriesKept(p, t)
    ensures SeriesAgree(m, p, t) <==> NoLeftovers(m, p, t)
  {
    if p != [] {
      FirstIsEarliest(p);
    }
  }

  /** Merging keeps this while the server's history goes on. */
  lemma MergeCarries(m: seq<Point>, p: seq<Point>, q: seq<Point>, t: nat, u: nat, since: nat)
    requires SeriesCarries(m, p, t) && SeriesKept(p, t) && SeriesLater(p, q, t, u) && SeriesKept(q, u)
    requires since <= t && q != []
    ensures SeriesCarries(MergePoints(m, From(q, since), u - WINDOW), q, u)
  {
    hide From, Between, MergePoints, SeriesLater, Sorted;
    var next := From(q, since);
    if next == [] {
      CarriesQuiet(m, p, q, t, u, since);
      assert MergePoints(m, next, u - WINDOW) == From(m, u - WINDOW) by {
        MergeOfNothing(m, u - WINDOW);
      }
    } else {
      FromHas(q, since);
      MergeSorted(m, next, u - WINDOW);
      MergeKeeps(m, p, q, t, u, since);
      CarriesNothing(m, p, q, t, u, since);
      FromLast(q, since);
      assert q[0] in q;
    }
  }

  lemma MergeOfNothing(m: seq<Point>, cutoff: int)
    ensures MergePoints(m, [], cutoff) == From(m, cutoff)
  {
  }

  /** The later series starts no earlier. */
  lemma StartsLater(p: seq<Point>, q: seq<Point>, t: nat, u: nat)
    requires SeriesKept(p, t) && SeriesLater(p, q, t, u) && p != [] && q != []
    ensures p[0].at <= q[0].at
  {
    FirstIsEarliest(p);
    assert q[0] in q && p[0] in p;
  }

  lemma CarriesNothing(m: seq<Point>, p: seq<Point>, q: seq<Point>, t: nat, u: nat, since: nat)
    requires SeriesCarries(m, p, t) && SeriesKept(p, t) && SeriesLater(p, q, t, u) && SeriesKept(q, u)
    requires since <= t && From(q, since) != []
    ensures forall x | x in MergePoints(m, From(q, since), u - WINDOW) && x.at > u - WINDOW && x.at >= q[0].at :: x in q
  {
    var next := From(q, since);
    FromHas(q, since);
    BetweenHas(m, u - WINDOW, next[0].at);
    if p != [] {
      StartsLater(p, q, t, u);
    }
    if exists y :: y in q && y.at == t {
      var y :| y in q && y.at == t;
      assert y in next;
      FirstIsEarliest(next);
    }
    forall x | x in MergePoints(m, next, u - WINDOW) && x.at > u - WINDOW && x.at >= q[0].at
      ensures x in q
    {
      assert x in next || (x in m && x in p && x.at < next[0].at);
    }
  }

  lemma CarriesQuiet(m: seq<Point>, p: seq<Point>, q: seq<Point>, t: nat, u: nat, since: nat)
    requires SeriesCarries(m, p, t) && SeriesKept(p, t) && SeriesLater(p, q, t, u) && SeriesKept(q, u)
    requires since <= t && q != [] && From(q, since) == []
    ensures SeriesCarries(From(m, u - WINDOW), q, u)
  {
    var kept := From(m, u - WINDOW);
    FromHas(q, since);
    FromHas(m, u - WINDOW);
    forall x | x in q
      ensures x in kept && x.at < t && x in p
    {
      assert x !in From(q, since);
    }
    assert Last(q) in q;
    StartsLater(p, q, t, u);
    FirstIsEarliest(q);
    hide From, Sorted;
    forall x | x in kept && x.at > u - WINDOW && x.at >= p[0].at
      ensures x in q
    {
      assert x in p;
    }
    LastIsLatest(q);
    assert Last(q) in kept && forall y | y in kept :: y.at <= Last(q).at;
    LastByTime(kept, Last(q));
  }

  /** Merging the whole of a new history, all of it since `since`, puts it behind what is
      held. */
  lemma MergeAcross(m: seq<Point>, q: seq<Point>, u: nat, since: nat)
    requires Sorted(m) && SeriesKept(q, u) && q != [] && forall x | x in q :: x.at >= since
    ensures SeriesCarries(MergePoints(m, From(q, since), u - WINDOW), q, u)
  {
    FromHas(q, since);
    SortedUnique(From(q, since), q);
    var kept := Between(m, u - WINDOW, q[0].at);
    BetweenHas(m, u - WINDOW, q[0].at);
    MergeSorted(m, q, u - WINDOW);
  }

  /** What it leaves over is what was held and is older. */
  lemma AcrossLeftovers(m: seq<Point>, q: seq<Point>, u: nat, since: nat)
    requires Sorted(m) && SeriesKept(q, u) && q != [] && forall x | x in q :: x.at >= since
    ensures NoLeftovers(MergePoints(m, From(q, since), u - WINDOW), q, u) <==> NoLeftovers(m, q, u)
  {
    FromHas(q, since);
    SortedUnique(From(q, since), q);
    var kept := Between(m, u - WINDOW, q[0].at);
    BetweenHas(m, u - WINDOW, q[0].at);
    FirstIsEarliest(q);
    hide Between, From;
    if !NoLeftovers(m, q, u) {
      var x :| x in m && x.at > u - WINDOW && x.at < q[0].at;
      assert x in kept + q;
    }
  }
}
