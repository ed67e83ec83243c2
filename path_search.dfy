/** The searches over a range `[lo, hi)` of a path: the point closest in
    time, the point closest to a location, and the first stationary
    segment. An index equal to `hi` is the end-of-range sentinel. */
module PathSearch {
  import opened Numeric
  import opened GeoMath
  import opened TimeCodec
  import opened PathAnalytics

  // ---------------------------------------------------------------------
  // find_closest_path_point_time
  // ---------------------------------------------------------------------

  /** `find_closest_path_point_time` as written: the delta inside the loop
      is taken from the FIRST point on every pass, so it never beats the
      initial one and the scan returns the start of any non-empty range. */
  method FindClosestPathPointTime(s: seq<Point>, lo: int, hi: int, target: int) returns (closest: int)
    requires 0 <= lo <= hi <= |s|
    ensures closest == if lo == hi then hi else lo
  {
    if lo == hi {
      return hi;
    }
    closest := lo;
    var smallestTimeDelta := s[lo].timestamp - target;
    for i := lo to hi
      invariant closest == lo && smallestTimeDelta == s[lo].timestamp - target
    {
      var delta := s[lo].timestamp - target;
      if delta < smallestTimeDelta {
        smallestTimeDelta := delta;
        closest := i;
      }
    }
  }

  /** `r` is the first point of the range whose time is nearest the target. */
  predicate IsNearestInTime(s: seq<Point>, lo: int, hi: int, target: int, r: int)
    requires 0 <= lo <= hi <= |s|
  {
    && lo <= r < hi
    && (forall j | lo <= j < hi :: IntAbs(s[r].timestamp - target) <= IntAbs(s[j].timestamp - target))
    && (forall j | lo <= j < r :: IntAbs(s[r].timestamp - target) < IntAbs(s[j].timestamp - target))
  }

  /** The search as intended: each point's own time is compared, by its
      distance from the target. */
  method FindNearestInTime(s: seq<Point>, lo: int, hi: int, target: int) returns (closest: int)
    requires 0 <= lo <= hi <= |s|
    ensures lo == hi ==> closest == hi
    ensures lo < hi ==> IsNearestInTime(s, lo, hi, target, closest)
  {
    if lo == hi {
      return hi;
    }
    closest := lo;
    var smallestTimeDelta := IntAbs(s[lo].timestamp - target);
    for i := lo to hi
      invariant lo <= closest < hi && (closest == lo || closest < i)
      invariant smallestTimeDelta == IntAbs(s[closest].timestamp - target)
      invariant forall j | lo <= j < i :: smallestTimeDelta <= IntAbs(s[j].timestamp - target)
      invariant forall j | lo <= j < closest :: smallestTimeDelta < IntAbs(s[j].timestamp - target)
    {
      var delta := IntAbs(s[i].timestamp - target);
      if delta < smallestTimeDelta {
        smallestTimeDelta := delta;
        closest := i;
      }
    }
  }

  /** Two points, at 0 and 10 microseconds, and a target of 10: the point
      nearest in time is the second, while the search as written answers
      the first. */
  lemma ClosestTimeMissesLaterPoint(s: seq<Point>)
    requires |s| == 2 && s[0].timestamp == 0 && s[1].timestamp == 10
    ensures IsNearestInTime(s, 0, 2, 10, 1)
    ensures !IsNearestInTime(s, 0, 2, 10, 0)
  {
    assert IntAbs(s[1].timestamp - 10) < IntAbs(s[0].timestamp - 10);
  }

  // ---------------------------------------------------------------------
  // find_closest_path_point_dist
  // ---------------------------------------------------------------------

  function DistanceTo(g: Geo, s: seq<Point>, j: int, target: Location): Double
    requires 0 <= j < |s|
  {
    g.distance(s[j].loc, target)
  }

  /** `r` is what the strict `<` scan settles on: if the first distance is
      NaN nothing compares below it and the first point stays; otherwise `r`
      has the smallest distance of all (NaN distances never win) and every
      earlier point is strictly farther or NaN. */
  predicate IsFirstClosest(g: Geo, s: seq<Point>, lo: int, hi: int, target: Location, r: int)
    requires 0 <= lo <= hi <= |s|
  {
    && lo <= r < hi
    && (DistanceTo(g, s, lo, target).NaN? ==> r == lo)
    && (DistanceTo(g, s, lo, target).Num? ==>
      && DistanceTo(g, s, r, target).Num?
      && (forall j | lo <= j < hi :: !Less(DistanceTo(g, s, j, target), DistanceTo(g, s, r, target)))
      && (forall j | lo <= j < r ::
            DistanceTo(g, s, j, target).NaN? || Less(DistanceTo(g, s, r, target), DistanceTo(g, s, j, target))))
  }

  /** `find_closest_path_point_dist`. */
  method FindClosestPathPointDist(g: Geo, s: seq<Point>, lo: int, hi: int, target: Location) returns (closest: int)
    requires 0 <= lo <= hi <= |s|
    ensures lo == hi ==> closest == hi
    ensures lo < hi ==> IsFirstClosest(g, s, lo, hi, target, closest)
  {
    if lo == hi {
      return hi;
    }
    closest := lo;
    var smallestDelta := g.distance(s[lo].loc, target);
    for i := lo to hi
      invariant lo <= closest < hi && (closest == lo || closest < i)
      invariant smallestDelta == DistanceTo(g, s, closest, target)
      invariant DistanceTo(g, s, lo, target).NaN? ==> closest == lo
      invariant DistanceTo(g, s, lo, target).Num? ==> smallestDelta.Num?
      invariant forall j | lo <= j < i :: !Less(DistanceTo(g, s, j, target), smallestDelta)
      invariant forall j | lo <= j < closest ::
        DistanceTo(g, s, j, target).NaN? || Less(smallestDelta, DistanceTo(g, s, j, target))
    {
      var delta := g.distance(s[i].loc, target);
      if Less(delta, smallestDelta) {
        smallestDelta := delta;
        closest := i;
      }
    }
  }

  /** The scan's answer is determined: two answers satisfying the
      description are the same point. */
  lemma FirstClosestIsUnique(g: Geo, s: seq<Point>, lo: int, hi: int, target: Location, r1: int, r2: int)
    requires 0 <= lo <= hi <= |s|
    requires IsFirstClosest(g, s, lo, hi, target, r1) && IsFirstClosest(g, s, lo, hi, target, r2)
    ensures r1 == r2
  {
    var d1, d2 := DistanceTo(g, s, r1, target), DistanceTo(g, s, r2, target);
    if DistanceTo(g, s, lo, target).Num? {
      assert !Less(d1, d2) && !Less(d2, d1);
      if r1 < r2 {
        assert false;
      } else if r2 < r1 {
        assert false;
      }
    }
  }

  /** A point lying exactly on the target, all other distances positive,
      is the one found. */
  lemma ExactHitIsFound(g: Geo, s: seq<Point>, lo: int, hi: int, target: Location, r: int, j: int)
    requires 0 <= lo <= j < hi <= |s|
    requires DistanceTo(g, s, j, target) == Num(0.0)
    requires forall k | lo <= k < hi && k != j :: DistanceTo(g, s, k, target).Num? && DistanceTo(g, s, k, target).r > 0.0
    requires IsFirstClosest(g, s, lo, hi, target, r)
    ensures r == j
  {
    assert DistanceTo(g, s, lo, target).Num?;
    assert !Less(DistanceTo(g, s, j, target), DistanceTo(g, s, r, target));
  }

  // ---------------------------------------------------------------------
  // find_stationary_points
  // ---------------------------------------------------------------------

  /** Still within `radiusM` metres of the segment start (a NaN distance
      counts as outside). */
  predicate WithinRadius(g: Geo, s: seq<Point>, start: int, j: int, radiusM: int)
    requires 0 <= start < |s| && 0 <= j < |s|
  {
    Less(g.distance(s[start].loc, s[j].loc), Num(radiusM as real))
  }

  /** More than `timeS` seconds from the segment start to point `j`. */
  predicate LongerThan(s: seq<Point>, start: int, j: int, timeS: int)
    requires 0 <= start < |s| && 0 <= j < |s|
  {
    s[j].timestamp - s[start].timestamp > timeS * MicrosPerSecond
  }

  /** The rest of the single forward scan from pass `i` with segment start
      `start` and qualification flag `timeOk`: pass `i` looks at point
      `i + 1`; the last pass is `hi - 2`. */
  function StationaryScan(g: Geo, s: seq<Point>, hi: int, radiusM: int, timeS: int, i: int, start: int, timeOk: bool): (int, int)
    requires 0 <= start <= i < hi <= |s|
    decreases hi - i
  {
    if i == hi - 1 then (hi, hi)
    else if WithinRadius(g, s, start, i + 1, radiusM) then
      StationaryScan(g, s, hi, radiusM, timeS, i + 1, start, timeOk || LongerThan(s, start, i, timeS))
    else if timeOk then (start, i)
    else StationaryScan(g, s, hi, radiusM, timeS, i + 1, i, false)
  }

  /** `find_stationary_points`; `end_it - 1` must exist, so the range is
      not empty. */
  method FindStationaryPoints(g: Geo, s: seq<Point>, lo: int, hi: int, radiusM: int, timeS: int)
    returns (first: int, last: int)
    requires 0 <= lo < hi <= |s|
    ensures (first, last) == StationaryScan(g, s, hi, radiusM, timeS, lo, lo, false)
  {
    var start := lo;
    var timeOk := false;
    var i := lo;
    while i != hi - 1
      invariant lo <= start <= i < hi
      invariant StationaryScan(g, s, hi, radiusM, timeS, i, start, timeOk)
             == StationaryScan(g, s, hi, radiusM, timeS, lo, lo, false)
      decreases hi - 1 - i
    {
      var delta := g.distance(s[start].loc, s[i + 1].loc);
      if Less(delta, Num(radiusM as real)) {
        if s[i].timestamp - s[start].timestamp > timeS * MicrosPerSecond {
          timeOk := true;
        }
      } else {
        if timeOk {
          return start, i;
        }
        start := i;
      }
      i := i + 1;
    }
    return hi, hi;
  }

  /** On an empty range the loop of `find_stationary_points` as written is
      entered, since `i == start_it` differs from `std::prev(end_it)`, and
      its first pass reads point `i + 1`, past `end_it`: the requires of
      `FindStationaryPoints` excludes exactly this case. */
  lemma StationaryEmptyRangeReadsPastEnd(lo: int, hi: int)
    requires lo == hi
    ensures lo != hi - 1 && lo + 1 > hi
  {
  }

  /** The search as intended: like its sibling functions, an empty range
      gives the "none found" answer `(hi, hi)`. */
  method FindStationaryPointsIntended(g: Geo, s: seq<Point>, lo: int, hi: int, radiusM: int, timeS: int)
    returns (first: int, last: int)
    requires 0 <= lo <= hi <= |s|
    ensures lo == hi ==> (first, last) == (hi, hi)
    ensures lo < hi ==> (first, last) == StationaryScan(g, s, hi, radiusM, timeS, lo, lo, false)
    ensures (first, last) == (hi, hi) || IsStationarySegment(g, s, lo, hi, radiusM, timeS, first, last)
  {
    if lo == hi {
      return hi, hi;
    }
    first, last := FindStationaryPoints(g, s, lo, hi, radiusM, timeS);
    StationaryPointsShape(g, s, lo, hi, radiusM, timeS);
  }

  /** A found segment `(a, b)`: `a` precedes `b`, and `b + 1` is a point of
      the range; the points `a + 2` to `b` lie within the radius of `a`
      (point `a + 1` is compared with `a` only when `a` is the start of the
      range), point `b + 1` does not, and at some point from `a` to `b - 1`
      more than `timeS` seconds have elapsed since `a`. */
  predicate IsStationarySegment(g: Geo, s: seq<Point>, lo: int, hi: int, radiusM: int, timeS: int, a: int, b: int)
    requires 0 <= lo <= hi <= |s|
  {
    && lo <= a < b && b + 2 <= hi
    && !WithinRadius(g, s, a, b + 1, radiusM)
    && (forall k | a + 1 < k <= b :: WithinRadius(g, s, a, k, radiusM))
    && (exists k | a <= k < b :: LongerThan(s, a, k, timeS))
  }

  lemma {:induction false} StationaryScanShape(g: Geo, s: seq<Point>, lo: int, hi: int, radiusM: int, timeS: int,
                                              i: int, start: int, timeOk: bool)
    requires 0 <= lo <= start <= i < hi <= |s|
    requires forall k | start + 1 < k <= i :: WithinRadius(g, s, start, k, radiusM)
    requires timeOk ==> exists k | start <= k < i :: LongerThan(s, start, k, timeS)
    ensures var r := StationaryScan(g, s, hi, radiusM, timeS, i, start, timeOk);
      r == (hi, hi) || IsStationarySegment(g, s, lo, hi, radiusM, timeS, r.0, r.1)
    decreases hi - i
  {
    if i == hi - 1 {
    } else if WithinRadius(g, s, start, i + 1, radiusM) {
      var ok := timeOk || LongerThan(s, start, i, timeS);
      assert ok ==> exists k | start <= k < i + 1 :: LongerThan(s, start, k, timeS);
      StationaryScanShape(g, s, lo, hi, radiusM, timeS, i + 1, start, ok);
    } else if timeOk {
    } else {
      StationaryScanShape(g, s, lo, hi, radiusM, timeS, i + 1, i, false);
    }
  }

  /** The scan answers either the sentinel `(hi, hi)` or a stationary
      segment inside the range. */
  lemma StationaryPointsShape(g: Geo, s: seq<Point>, lo: int, hi: int, radiusM: int, timeS: int)
    requires 0 <= lo < hi <= |s|
    ensures var r := StationaryScan(g, s, hi, radiusM, timeS, lo, lo, false);
      r == (hi, hi) || IsStationarySegment(g, s, lo, hi, radiusM, timeS, r.0, r.1)
  {
    StationaryScanShape(g, s, lo, hi, radiusM, timeS, lo, lo, false);
  }

  lemma {:induction false} StationaryScanNeedsTime(g: Geo, s: seq<Point>, lo: int, hi: int, radiusM: int, timeS: int,
                                                  i: int, start: int)
    requires 0 <= lo <= start <= i < hi <= |s|
    requires forall j, k | lo <= j <= k < hi :: !LongerThan(s, j, k, timeS)
    ensures StationaryScan(g, s, hi, radiusM, timeS, i, start, false) == (hi, hi)
    decreases hi - i
  {
    if i < hi - 1 {
      if WithinRadius(g, s, start, i + 1, radiusM) {
        assert !LongerThan(s, start, i, timeS);
        StationaryScanNeedsTime(g, s, lo, hi, radiusM, timeS, i + 1, start);
      } else {
        StationaryScanNeedsTime(g, s, lo, hi, radiusM, timeS, i + 1, i);
      }
    }
  }

  /** A path on which no point is more than `timeS` seconds after an
      earlier one has no stationary segment: the answer is `(hi, hi)`. */
  lemma NoStopWithoutTime(g: Geo, s: seq<Point>, lo: int, hi: int, radiusM: int, timeS: int)
    requires 0 <= lo < hi <= |s|
    requires forall j, k | lo <= j <= k < hi :: !LongerThan(s, j, k, timeS)
    ensures StationaryScan(g, s, hi, radiusM, timeS, lo, lo, false) == (hi, hi)
  {
    StationaryScanNeedsTime(g, s, lo, hi, radiusM, timeS, lo, lo);
  }
}
