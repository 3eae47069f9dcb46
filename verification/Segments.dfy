/** Cutting a history into the unbroken lines of a chart: `src/components/HistoryChart.tsx`
    and the quota history in `src/components/AgentUsagePopover.tsx`. */
module Segments {
  import opened Wrappers
  import opened Floats

  datatype Point = Point(at: int, value: Option<Float>)

  datatype Dot = Dot(at: int, value: real)

  predicate IsReading(p: Point) {
    p.value.Some? && p.value.value.IsFinite()
  }

  function DotOf(p: Point): Dot
    requires IsReading(p)
  {
    Dot(p.at, p.value.value.r)
  }

  // --- What the lines should be ---

  /** Points `i - 1` and `i` are joined: both are readings, and not too far apart. */
  predicate Linked(w: seq<Point>, gapSeconds: Option<int>, i: nat)
    requires i < |w|
  {
    i > 0 && IsReading(w[i - 1]) && IsReading(w[i]) && (gapSeconds.None? || w[i].at - w[i - 1].at <= gapSeconds.value)
  }

  /** A stretch of the history, from `lo` up to but not including `hi`. */
  datatype Stretch = Stretch(lo: nat, hi: nat)

  /** The stretches once point `i` is added to those of the points before it. */
  function Next(w: seq<Point>, gapSeconds: Option<int>, i: nat, before: seq<Stretch>): seq<Stretch>
    requires i < |w| && (Linked(w, gapSeconds, i) ==> before != [])
  {
    if !IsReading(w[i]) then before
    else if Linked(w, gapSeconds, i) then before[|before| - 1 := before[|before| - 1].(hi := i + 1)]
    else before + [Stretch(i, i + 1)]
  }

  /** The maximal stretches of joined readings among the first `n` points. */
  function Stretches(w: seq<Point>, gapSeconds: Option<int>, n: nat): (r: seq<Stretch>)
    requires n <= |w|
    ensures n < |w| && Linked(w, gapSeconds, n) ==> r != [] && r[|r| - 1].hi == n
  {
    if n == 0 then []
    else
      Next(w, gapSeconds, n - 1, Stretches(w, gapSeconds, n - 1))
  }

  /** A stretch inside which all is joined, and which begins where a line must. */
  predicate IsLine(w: seq<Point>, gapSeconds: Option<int>, s: Stretch) {
    && s.lo < s.hi <= |w|
    && (forall i | s.lo <= i < s.hi :: IsReading(w[i]))
    && (forall i | s.lo < i < s.hi :: Linked(w, gapSeconds, i))
    && !Linked(w, gapSeconds, s.lo)
  }

  predicate InOrder(r: seq<Stretch>) {
    forall j, k | 0 <= j < k < |r| :: r[j].hi <= r[k].lo
  }

  predicate Covered(r: seq<Stretch>, i: nat) {
    exists k :: 0 <= k < |r| && r[k].lo <= i < r[k].hi
  }

  ghost predicate AllLines(w: seq<Point>, gapSeconds: Option<int>, r: seq<Stretch>, n: nat) {
    forall k | 0 <= k < |r| :: IsLine(w, gapSeconds, r[k]) && r[k].lo < r[k].hi <= n
  }

  ghost predicate CoversReadings(w: seq<Point>, r: seq<Stretch>, n: nat)
    requires n <= |w|
  {
    forall i: nat | i < n && IsReading(w[i]) :: Covered(r, i)
  }

  lemma LineLonger(w: seq<Point>, gapSeconds: Option<int>, s: Stretch)
    requires IsLine(w, gapSeconds, s) && s.hi < |w| && Linked(w, gapSeconds, s.hi)
    ensures IsLine(w, gapSeconds, s.(hi := s.hi + 1))
  {
  }

  lemma CoversMore(w: seq<Point>, r: seq<Stretch>, n: nat, longer: seq<Stretch>, last: nat)
    requires n < |w| && CoversReadings(w, r, n)
    requires |r| <= |longer| && forall k | 0 <= k < |r| :: longer[k].lo == r[k].lo && longer[k].hi >= r[k].hi
    requires last < |longer| && longer[last].lo <= n < longer[last].hi
    ensures CoversReadings(w, longer, n + 1)
  {
    forall i: nat | i < n + 1 && IsReading(w[i]) ensures Covered(longer, i) {
      if i < n {
        assert Covered(r, i);
        var k :| 0 <= k < |r| && r[k].lo <= i < r[k].hi;
        assert longer[k].lo <= i < longer[k].hi;
      }
    }
  }

  lemma LineOfOne(w: seq<Point>, gapSeconds: Option<int>, i: nat)
    requires i < |w| && IsReading(w[i]) && !Linked(w, gapSeconds, i)
    ensures IsLine(w, gapSeconds, Stretch(i, i + 1))
  {
  }

  lemma LastReplaced(w: seq<Point>, gapSeconds: Option<int>, before: seq<Stretch>, n: nat)
    requires AllLines(w, gapSeconds, before, n) && InOrder(before) && before != []
    requires IsLine(w, gapSeconds, before[|before| - 1].(hi := n + 1))
    ensures var r := before[|before| - 1 := before[|before| - 1].(hi := n + 1)];
      AllLines(w, gapSeconds, r, n + 1) && InOrder(r)
  {
    hide IsLine;
  }

  lemma LastAdded(w: seq<Point>, gapSeconds: Option<int>, before: seq<Stretch>, n: nat)
    requires AllLines(w, gapSeconds, before, n) && InOrder(before) && IsLine(w, gapSeconds, Stretch(n, n + 1))
    ensures AllLines(w, gapSeconds, before + [Stretch(n, n + 1)], n + 1) && InOrder(before + [Stretch(n, n + 1)])
  {
    hide IsLine;
  }

  lemma NextAreLines(w: seq<Point>, gapSeconds: Option<int>, i: nat, before: seq<Stretch>)
    requires i < |w| && AllLines(w, gapSeconds, before, i) && InOrder(before) && CoversReadings(w, before, i)
    requires Linked(w, gapSeconds, i) ==> before != [] && before[|before| - 1].hi == i
    ensures var r := Next(w, gapSeconds, i, before);
      AllLines(w, gapSeconds, r, i + 1) && InOrder(r) && CoversReadings(w, r, i + 1)
  {
    hide IsLine, Linked, Covered, InOrder, IsReading;
    var last := |before| - 1;
    if !IsReading(w[i]) {
    } else if Linked(w, gapSeconds, i) {
      assert IsLine(w, gapSeconds, before[last]) && before[last].lo < i;
      hide AllLines, CoversReadings;
      LineLonger(w, gapSeconds, before[last]);
      LastReplaced(w, gapSeconds, before, i);
      CoversMore(w, before, i, before[last := before[last].(hi := i + 1)], last);
    } else {
      hide AllLines, CoversReadings;
      LineOfOne(w, gapSeconds, i);
      LastAdded(w, gapSeconds, before, i);
      CoversMore(w, before, i, before + [Stretch(i, i + 1)], |before|);
    }
  }

  ghost predicate AreLines(w: seq<Point>, gapSeconds: Option<int>, r: seq<Stretch>, n: nat)
    requires n <= |w|
  {
    AllLines(w, gapSeconds, r, n) && InOrder(r) && CoversReadings(w, r, n)
  }

  lemma AreLinesNext(w: seq<Point>, gapSeconds: Option<int>, i: nat, before: seq<Stretch>)
    requires i < |w| && AreLines(w, gapSeconds, before, i)
    requires Linked(w, gapSeconds, i) ==> before != [] && before[|before| - 1].hi == i
    ensures AreLines(w, gapSeconds, Next(w, gapSeconds, i, before), i + 1)
  {
    hide Linked, Next, AllLines, InOrder, CoversReadings;
    NextAreLines(w, gapSeconds, i, before);
  }

  /** The stretches are lines, in order and apart, and every reading is in one. */
  lemma {:induction false} StretchesAreLines(w: seq<Point>, gapSeconds: Option<int>, n: nat)
    requires n <= |w|
    ensures AreLines(w, gapSeconds, Stretches(w, gapSeconds, n), n)
  {
    hide AreLines, Linked, Next, Stretches;
    if n == 0 {
      NoStretches(w, gapSeconds);
    } else {
      StretchesAreLines(w, gapSeconds, n - 1);
      StretchesStep(w, gapSeconds, n);
      AreLinesNext(w, gapSeconds, n - 1, Stretches(w, gapSeconds, n - 1));
    }
  }

  lemma NoStretches(w: seq<Point>, gapSeconds: Option<int>)
    ensures Stretches(w, gapSeconds, 0) == [] && AreLines(w, gapSeconds, [], 0)
  {
  }

  lemma StretchesStep(w: seq<Point>, gapSeconds: Option<int>, n: nat)
    requires 0 < n <= |w|
    ensures var before := Stretches(w, gapSeconds, n - 1);
      && (Linked(w, gapSeconds, n - 1) ==> before != [] && before[|before| - 1].hi == n - 1)
      && Stretches(w, gapSeconds, n) == Next(w, gapSeconds, n - 1, before)
  {
    hide Linked, Next;
  }

  /** No line bridges a missing reading or too long a gap, and none stops early: neighbouring
      points share a line exactly when they are joined. */
  lemma SameLineWhenLinked(w: seq<Point>, gapSeconds: Option<int>, i: nat)
    requires 0 < i < |w|
    ensures Linked(w, gapSeconds, i) <==>
            exists k | 0 <= k < |Stretches(w, gapSeconds, |w|)| ::
              Stretches(w, gapSeconds, |w|)[k].lo < i < Stretches(w, gapSeconds, |w|)[k].hi
  {
    StretchesAreLines(w, gapSeconds, |w|);
    var r := Stretches(w, gapSeconds, |w|);
    hide Stretches;
    if Linked(w, gapSeconds, i) {
      assert Covered(r, i);
      var k :| 0 <= k < |r| && r[k].lo <= i < r[k].hi;
      assert IsLine(w, gapSeconds, r[k]);
      assert r[k].lo < i;
    }
  }

  // --- The dots of a stretch ---

  predicate AllReadings(points: seq<Point>) {
    forall i | 0 <= i < |points| :: IsReading(points[i])
  }

  function Dots(points: seq<Point>): seq<Dot>
    requires AllReadings(points)
  {
    seq(|points|, i requires 0 <= i < |points| => DotOf(points[i]))
  }

  /** The readings of the first `n` points, in order. */
  function Readings(w: seq<Point>, n: nat): seq<Dot>
    requires n <= |w|
  {
    if n == 0 then []
    else Readings(w, n - 1) + if IsReading(w[n - 1]) then [DotOf(w[n - 1])] else []
  }

  /** What is read is exactly the finite values, at their times: missing ones, NaN and the
      infinities are not drawn. */
  lemma {:induction false} ReadingsAre(w: seq<Point>, n: nat)
    requires n <= |w|
    ensures forall d :: d in Readings(w, n) <==> Point(d.at, Some(Fin(d.value))) in w[..n]
  {
    if n > 0 {
      ReadingsAre(w, n - 1);
      assert w[..n] == w[..n - 1] + [w[n - 1]];
    }
  }

  function Flatten(segments: seq<seq<Dot>>): seq<Dot> {
    if segments == [] then [] else Flatten(segments[..|segments| - 1]) + segments[|segments| - 1]
  }

  /** `segments` draws the given stretches of `w`. */
  predicate Draws(w: seq<Point>, stretches: seq<Stretch>, segments: seq<seq<Dot>>) {
    && |segments| == |stretches|
    && forall k | 0 <= k < |segments| :: DrawsOne(w, stretches[k], segments[k])
  }

  predicate DrawsOne(w: seq<Point>, s: Stretch, segment: seq<Dot>) {
    s.lo <= s.hi <= |w| && AllReadings(w[s.lo..s.hi]) && segment == Dots(w[s.lo..s.hi])
  }

  lemma DrawsLonger(w: seq<Point>, s: Stretch, segment: seq<Dot>)
    requires DrawsOne(w, s, segment) && s.hi < |w| && IsReading(w[s.hi])
    ensures DrawsOne(w, s.(hi := s.hi + 1), segment + [DotOf(w[s.hi])])
  {
    assert w[s.lo..s.hi + 1] == w[s.lo..s.hi] + [w[s.hi]];
  }

  lemma DrawsSingle(w: seq<Point>, i: nat)
    requires i < |w| && IsReading(w[i])
    ensures DrawsOne(w, Stretch(i, i + 1), [DotOf(w[i])])
  {
    assert w[i..i + 1] == [w[i]];
  }

  /** The lines through the first `n` points. */
  function Drawn(w: seq<Point>, gapSeconds: Option<int>, n: nat): (r: seq<seq<Dot>>)
    requires n <= |w|
    ensures n > 0 && IsReading(w[n - 1]) ==> r != []
  {
    if n == 0 then []
    else
      var before := Drawn(w, gapSeconds, n - 1);
      if !IsReading(w[n - 1]) then before
      else if Linked(w, gapSeconds, n - 1) then before[|before| - 1 := before[|before| - 1] + [DotOf(w[n - 1])]]
      else before + [[DotOf(w[n - 1])]]
  }

  lemma DrawsUpdated(w: seq<Point>, r: seq<Stretch>, lines: seq<seq<Dot>>, s: Stretch, line: seq<Dot>)
    requires Draws(w, r, lines) && DrawsOne(w, s, line)
    ensures Draws(w, r + [s], lines + [line])
    ensures r != [] ==> Draws(w, r[|r| - 1 := s], lines[|r| - 1 := line])
  {
    hide DrawsOne;
  }

  lemma DrawnIs(w: seq<Point>, gapSeconds: Option<int>, i: nat)
    requires i < |w|
    ensures var before, after := Drawn(w, gapSeconds, i), Drawn(w, gapSeconds, i + 1);
      && (!IsReading(w[i]) ==> after == before)
      && (IsReading(w[i]) && Linked(w, gapSeconds, i) ==>
            before != [] && after == before[|before| - 1 := before[|before| - 1] + [DotOf(w[i])]])
      && (IsReading(w[i]) && !Linked(w, gapSeconds, i) ==> after == before + [[DotOf(w[i])]])
  {
    hide DotOf;
  }

  /** The lines drawn are the stretches, each with all its readings. */
  lemma {:induction false} DrawnAreStretches(w: seq<Point>, gapSeconds: Option<int>, n: nat)
    requires n <= |w|
    ensures Draws(w, Stretches(w, gapSeconds, n), Drawn(w, gapSeconds, n))
  {
    hide DrawsOne, Linked, IsReading, DotOf, Stretches, Drawn;
    if n == 0 {
      NothingDrawn(w, gapSeconds);
      assert Stretches(w, gapSeconds, 0) == [] by {
        NoStretches(w, gapSeconds);
      }
    } else {
      DrawnAreStretches(w, gapSeconds, n - 1);
      var r, before := Stretches(w, gapSeconds, n - 1), Drawn(w, gapSeconds, n - 1);
      StretchesStep(w, gapSeconds, n);
      DrawnIs(w, gapSeconds, n - 1);
      if IsReading(w[n - 1]) {
        assert r != [] ==> |before| == |r| && DrawsOne(w, r[|r| - 1], before[|r| - 1]);
        hide Draws;
        if Linked(w, gapSeconds, n - 1) {
          var last := |r| - 1;
          DrawsLonger(w, r[last], before[last]);
          DrawsUpdated(w, r, before, r[last].(hi := n), before[last] + [DotOf(w[n - 1])]);
        } else {
          DrawsSingle(w, n - 1);
          DrawsUpdated(w, r, before, Stretch(n - 1, n), [DotOf(w[n - 1])]);
        }
      }
    }
  }

  // --- The loops ---

  lemma ReplaceLast<T>(s: seq<T>, a: T, b: T)
    ensures (s + [a])[|s| := b] == s + [b]
  {
  }

  /** The lines so far, the open one included. */
  function WithOpen(segments: seq<seq<Dot>>, current: seq<Dot>): seq<seq<Dot>> {
    if current == [] then segments else segments + [current]
  }

  /** One series of a chart. `latest` is the value shown beside it. */
  method Plot(windowed: seq<Point>, gapSeconds: Option<int>) returns (segments: seq<seq<Dot>>, latest: Option<real>)
    ensures segments == Drawn(windowed, gapSeconds, |windowed|)
    ensures latest == var all := Readings(windowed, |windowed|); if all == [] then None else Some(all[|all| - 1].value)
  {
    hide Readings, Drawn, Stretches;
    NothingDrawn(windowed, gapSeconds);
    segments := [];
    var current := [];
    for i := 0 to |windowed|
      invariant current != [] <==> i > 0 && IsReading(windowed[i - 1])
      invariant current != [] ==> current[|current| - 1] == DotOf(windowed[i - 1])
      invariant WithOpen(segments, current) == Drawn(windowed, gapSeconds, i)
    {
      var point := windowed[i];
      DrawnIs(windowed, gapSeconds, i);
      var gap := gapSeconds.Some? && current != [] && point.at - current[|current| - 1].at > gapSeconds.value;
      if !IsReading(point) || gap {
        if |current| > 0 {
          segments := segments + [current];
          current := [];
        }
        if !IsReading(point) {
          continue;
        }
      }
      assert current == [] <==> !Linked(windowed, gapSeconds, i);
      ReplaceLast(segments, current, current + [DotOf(point)]);
      assert [] + [DotOf(point)] == [DotOf(point)];
      current := current + [DotOf(point)];
      assert WithOpen(segments, current) == Drawn(windowed, gapSeconds, i + 1);
    }
    if |current| > 0 {
      segments := segments + [current];
    }
    LatestIsLast(windowed, gapSeconds, |windowed|);
    latest := None;
    if |segments| > 0 && |segments[|segments| - 1]| > 0 {
      var line := segments[|segments| - 1];
      latest := Some(line[|line| - 1].value);
    }
  }

  // --- Nothing is lost ---

  lemma FlattenMore(segments: seq<seq<Dot>>, more: seq<Dot>)
    ensures segments != [] ==>
            Flatten(segments[|segments| - 1 := segments[|segments| - 1] + more]) == Flatten(segments) + more
    ensures Flatten(segments + [more]) == Flatten(segments) + more
  {
    if segments != [] {
      var n := |segments| - 1;
      assert segments[n := segments[n] + more][..n] == segments[..n];
    }
    assert (segments + [more])[..|segments|] == segments;
  }

  /** One more reading lengthens the last line or begins another. */
  lemma DrawnStep(w: seq<Point>, gapSeconds: Option<int>, n: nat)
    requires 0 < n <= |w|
    ensures var before, after := Drawn(w, gapSeconds, n - 1), Drawn(w, gapSeconds, n);
      if !IsReading(w[n - 1]) then after == before && Readings(w, n) == Readings(w, n - 1)
      else
        var more := [DotOf(w[n - 1])];
        && Readings(w, n) == Readings(w, n - 1) + more
        && (after == before + [more] || (before != [] && after == before[|before| - 1 := before[|before| - 1] + more]))
  {
    hide DotOf;
  }

  lemma NothingDrawn(w: seq<Point>, gapSeconds: Option<int>)
    ensures Drawn(w, gapSeconds, 0) == [] && Flatten([]) == [] == Readings(w, 0)
  {
  }

  /** The lines hold every finite reading of the window once and in order. */
  lemma {:induction false} LinesConserve(w: seq<Point>, gapSeconds: Option<int>, n: nat)
    requires n <= |w|
    ensures Flatten(Drawn(w, gapSeconds, n)) == Readings(w, n)
  {
    hide Flatten, Drawn, Readings, IsReading, DotOf;
    if n == 0 {
      NothingDrawn(w, gapSeconds);
    } else {
      LinesConserve(w, gapSeconds, n - 1);
      DrawnStep(w, gapSeconds, n);
      if IsReading(w[n - 1]) {
        FlattenMore(Drawn(w, gapSeconds, n - 1), [DotOf(w[n - 1])]);
      }
    }
  }

  ghost predicate EndsLike(lines: seq<seq<Dot>>, all: seq<Dot>) {
    && (lines == [] <==> all == [])
    && (lines != [] ==> lines[|lines| - 1] != [] && lines[|lines| - 1][|lines[|lines| - 1]| - 1] == all[|all| - 1])
  }

  lemma EndsLikeMore(lines: seq<seq<Dot>>, all: seq<Dot>, d: Dot)
    ensures EndsLike(lines + [[d]], all + [d])
    ensures lines != [] ==> EndsLike(lines[|lines| - 1 := lines[|lines| - 1] + [d]], all + [d])
  {
  }

  /** No line is empty, and the last dot of the last one is the last reading. */
  lemma {:induction false} LatestIsLast(w: seq<Point>, gapSeconds: Option<int>, n: nat)
    requires n <= |w|
    ensures EndsLike(Drawn(w, gapSeconds, n), Readings(w, n))
  {
    if n == 0 {
      NothingDrawn(w, gapSeconds);
      hide Drawn;
    } else {
      hide Drawn, Readings, EndsLike, IsReading, DotOf;
      LatestIsLast(w, gapSeconds, n - 1);
      DrawnStep(w, gapSeconds, n);
      if IsReading(w[n - 1]) {
        EndsLikeMore(Drawn(w, gapSeconds, n - 1), Readings(w, n - 1), DotOf(w[n - 1]));
      }
    }
  }

  // --- The window ---

  function Max(a: int, b: int): int {
    if a < b then b else a
  }

  function WindowStart(points: seq<Point>, clock: int, rangeSeconds: int): int {
    Max(clock, if points == [] then 0 else points[|points| - 1].at) - rangeSeconds
  }

  function Windowed(points: seq<Point>, start: int): seq<Point> {
    if points == [] then []
    else
      var n := |points| - 1;
      Windowed(points[..n], start) + if points[n].at >= start then [points[n]] else []
  }

  /** Of a history in time order the window is an end piece, so neighbours in the window were
      neighbours in the history. */
  lemma {:induction false} WindowIsAnEnd(points: seq<Point>, start: int) returns (from: nat)
    requires forall i, j | 0 <= i < j < |points| :: points[i].at <= points[j].at
    ensures from <= |points| && Windowed(points, start) == points[from..]
    ensures forall i | 0 <= i < |points| :: points[i].at >= start <==> from <= i
  {
    hide Windowed;
    var n := |points| - 1;
    if points == [] || points[n].at < start {
      NoneInWindow(points, start);
      from := |points|;
    } else {
      var front := points[..n];
      assert forall i | 0 <= i < n :: points[i] == front[i];
      WindowedStep(points, start);
      from := WindowIsAnEnd(front, start);
      assert points[from..] == front[from..] + [points[n]];
    }
  }

  /** A chart with readings has none to show exactly when its newest one is older, by the
      clock, than the range. */
  lemma WindowIsEmptyWhenStale(points: seq<Point>, clock: int, rangeSeconds: nat)
    requires points != [] && forall i, j | 0 <= i < j < |points| :: points[i].at <= points[j].at
    ensures Windowed(points, WindowStart(points, clock, rangeSeconds)) == [] <==> points[|points| - 1].at < clock - rangeSeconds
  {
    hide Windowed;
    var from := WindowIsAnEnd(points, WindowStart(points, clock, rangeSeconds));
  }

  /** The window is the end piece of the history with exactly the readings that are no older
      than the range, neither by the clock nor by the newest reading, which the backend's clock
      can put ahead of it. */
  lemma WindowShows(points: seq<Point>, clock: nat, rangeSeconds: nat)
    requires forall i | 0 <= i < |points| :: 0 <= points[i].at
    requires forall i, j | 0 <= i < j < |points| :: points[i].at <= points[j].at
    ensures var window := Windowed(points, WindowStart(points, clock, rangeSeconds));
      && |window| <= |points| && window == points[|points| - |window|..]
      && forall i | 0 <= i < |points| :: |points| - |window| <= i
           <==> points[i].at >= clock - rangeSeconds && points[i].at >= points[|points| - 1].at - rangeSeconds
  {
    hide Windowed;
    var from := WindowIsAnEnd(points, WindowStart(points, clock, rangeSeconds));
  }

  lemma WindowedStep(points: seq<Point>, start: int)
    requires points != [] && points[|points| - 1].at >= start
    ensures Windowed(points, start) == Windowed(points[..|points| - 1], start) + [points[|points| - 1]]
  {
  }

  lemma {:induction false} NoneInWindow(points: seq<Point>, start: int)
    requires forall i | 0 <= i < |points| :: points[i].at < start
    ensures Windowed(points, start) == []
  {
    if points != [] {
      NoneInWindow(points[..|points| - 1], start);
    }
  }

  // --- The quota chart ---

  datatype Limit = Limit(windowMinutes: int, group: Option<string>, remainingPercent: Option<real>)

  datatype QuotaPoint = QuotaPoint(capturedAt: int, status: string, limits: seq<Limit>)

  /** Which groups of limits the chart shows; `None` stands for a limit without a group. */
  type GroupFilter = Option<string> -> bool

  predicate Matches(limit: Limit, windowMinutes: int, matchesGroup: GroupFilter) {
    limit.windowMinutes == windowMinutes && matchesGroup(limit.group) && limit.remainingPercent.Some?
  }

  function Find(limits: seq<Limit>, windowMinutes: int, matchesGroup: GroupFilter): Option<Limit> {
    if limits == [] then None
    else if Matches(limits[0], windowMinutes, matchesGroup) then Some(limits[0])
    else Find(limits[1..], windowMinutes, matchesGroup)
  }

  /** A quota reading as a point: missing unless the quota was available and has the limit. */
  function QuotaReading(p: QuotaPoint, windowMinutes: int, matchesGroup: GroupFilter): Point {
    var limit := if p.status == "available" then Find(p.limits, windowMinutes, matchesGroup) else None;
    Point(p.capturedAt,
          if limit.Some? && limit.value.remainingPercent.Some? then Some(Fin(limit.value.remainingPercent.value)) else None)
  }

  function QuotaPoints(history: seq<QuotaPoint>, windowMinutes: int, matchesGroup: GroupFilter): (r: seq<Point>)
    ensures |r| == |history|
  {
    seq(|history|, i requires 0 <= i < |history| => QuotaReading(history[i], windowMinutes, matchesGroup))
  }

  ghost predicate ShowsLimit(limits: seq<Limit>, windowMinutes: int, matchesGroup: GroupFilter, i: nat, value: Float) {
    && IsFirstMatch(limits, windowMinutes, matchesGroup, i)
    && limits[i].remainingPercent.Some? && value == Fin(limits[i].remainingPercent.value)
  }

  /** A quota point has a value exactly if the quota was available and one of its limits is for
      this window and group with a percentage; it is then the percentage of the first such. */
  lemma QuotaReadingIs(p: QuotaPoint, windowMinutes: int, matchesGroup: GroupFilter)
    ensures var point := QuotaReading(p, windowMinutes, matchesGroup);
      && point.at == p.capturedAt
      && (point.value.None? <==> p.status != "available" || forall l | l in p.limits ::
            l.windowMinutes != windowMinutes || !matchesGroup(l.group) || l.remainingPercent.None?)
      && (point.value.Some? ==> exists i: nat :: ShowsLimit(p.limits, windowMinutes, matchesGroup, i, point.value.value))
  {
    FindIsFirst(p.limits, windowMinutes, matchesGroup);
    var found := Find(p.limits, windowMinutes, matchesGroup);
    hide Find, IsFirstMatch;
    if found.Some? {
      var i :| 0 <= i < |p.limits| && p.limits[i] == found.value && IsFirstMatch(p.limits, windowMinutes, matchesGroup, i);
      FirstMatches(p.limits, windowMinutes, matchesGroup, i);
      if p.status == "available" {
        assert ShowsLimit(p.limits, windowMinutes, matchesGroup, i, QuotaReading(p, windowMinutes, matchesGroup).value.value);
      }
    }
  }

  lemma FirstMatches(limits: seq<Limit>, windowMinutes: int, matchesGroup: GroupFilter, i: nat)
    requires IsFirstMatch(limits, windowMinutes, matchesGroup, i)
    ensures i < |limits| && limits[i] in limits && Matches(limits[i], windowMinutes, matchesGroup)
  {
  }

  /** The quota chart cuts its lines at missing readings and nowhere else. */
  method HistorySegments(history: seq<QuotaPoint>, windowMinutes: int, matchesGroup: GroupFilter) returns (segments: seq<seq<Dot>>)
    ensures var w := QuotaPoints(history, windowMinutes, matchesGroup);
      segments == Drawn(w, None, |w|) && Flatten(segments) == Readings(w, |w|)
  {
    hide Readings, Drawn, Stretches, Flatten;
    ghost var w := QuotaPoints(history, windowMinutes, matchesGroup);
    NothingDrawn(w, None);
    segments := [];
    var current := [];
    for i := 0 to |history|
      invariant current != [] <==> i > 0 && IsReading(w[i - 1])
      invariant WithOpen(segments, current) == Drawn(w, None, i)
    {
      var point := history[i];
      DrawnIs(w, None, i);
      var limit := if point.status == "available" then Find(point.limits, windowMinutes, matchesGroup) else None;
      if limit.None? || limit.value.remainingPercent.None? {
        if |current| > 0 {
          segments := segments + [current];
        }
        current := [];
        continue;
      }
      var dot := Dot(point.capturedAt, limit.value.remainingPercent.value);
      assert IsReading(w[i]) && DotOf(w[i]) == dot;
      assert current == [] <==> !Linked(w, None, i);
      ReplaceLast(segments, current, current + [dot]);
      assert [] + [dot] == [dot];
      current := current + [dot];
      assert WithOpen(segments, current) == Drawn(w, None, i + 1);
    }
    if |current| > 0 {
      segments := segments + [current];
    }
    LinesConserve(w, None, |w|);
  }

  predicate IsFirstMatch(limits: seq<Limit>, windowMinutes: int, matchesGroup: GroupFilter, i: nat) {
    && i < |limits| && Matches(limits[i], windowMinutes, matchesGroup)
    && forall j | 0 <= j < i :: !Matches(limits[j], windowMinutes, matchesGroup)
  }

  /** The limit read is the first that matches. */
  lemma {:induction false} FindIsFirst(limits: seq<Limit>, windowMinutes: int, matchesGroup: GroupFilter)
    ensures match Find(limits, windowMinutes, matchesGroup)
      case None => forall i | 0 <= i < |limits| :: !Matches(limits[i], windowMinutes, matchesGroup)
      case Some(limit) => exists i | 0 <= i < |limits| :: limits[i] == limit && IsFirstMatch(limits, windowMinutes, matchesGroup, i)
  {
    if limits == [] {
    } else if Matches(limits[0], windowMinutes, matchesGroup) {
      assert IsFirstMatch(limits, windowMinutes, matchesGroup, 0);
    } else {
      var others := limits[1..];
      FindIsFirst(others, windowMinutes, matchesGroup);
      assert forall j | 0 < j < |limits| :: limits[j] == others[j - 1];
      hide Matches;
      if Find(others, windowMinutes, matchesGroup).Some? {
        var i :| 0 <= i < |others| && others[i] == Find(others, windowMinutes, matchesGroup).value
                 && IsFirstMatch(others, windowMinutes, matchesGroup, i);
        assert limits[i + 1] == others[i] && IsFirstMatch(limits, windowMinutes, matchesGroup, i + 1);
      }
    }
  }
}
