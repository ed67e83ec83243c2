/** Track points, derived values, and the path functions that walk the
    consecutive pairs of a range `[lo, hi)` of a path: distance, heading,
    speed, cumulative distance, and the path summary. */
module PathAnalytics {
  import opened Numeric
  import opened GeoMath
  import opened TimeCodec

  /** A fix: its location, its time in microseconds since the Unix epoch,
      and the sequence number the decoder gave it. */
  datatype Point = Point(loc: Location, timestamp: int, sequence: int)

  /** A value derived along the path (heading, speed, distance so far, a
      filtered value), tagged with a time. */
  datatype PathValue = PathValue(value: Double, timestamp: int)

  datatype PathSummary = PathSummary(
    points: int,
    startTime: string,
    endTime: string,
    durationS: int,
    distanceM: real,
    meanSpeedKph: real)

  // ---------------------------------------------------------------------
  // path_distance
  // ---------------------------------------------------------------------

  /** The distance from point `i` to point `i + 1`. */
  function PairDistance(g: Geo, s: seq<Point>, i: int): Double
    requires 0 <= i < |s| - 1
  {
    g.distance(s[i].loc, s[i + 1].loc)
  }

  function NanAsZero(d: Double): real {
    if d.Num? then d.r else 0.0
  }

  /** The length of the range: the distances of its consecutive pairs
      summed, a NaN distance counting as nothing. */
  function DistanceSum(g: Geo, s: seq<Point>, lo: int, hi: int): real
    requires 0 <= lo <= hi <= |s|
    decreases hi - lo
  {
    if hi - lo < 2 then 0.0 else DistanceSum(g, s, lo, hi - 1) + NanAsZero(PairDistance(g, s, hi - 2))
  }

  /** `path_distance`. */
  method PathDistance(g: Geo, s: seq<Point>, lo: int, hi: int) returns (dist: real)
    requires 0 <= lo <= hi <= |s|
    ensures dist == DistanceSum(g, s, lo, hi)
  {
    dist := 0.0;
    if lo == hi {
      return;
    }
    var end := hi - 1;
    if end == lo {
      return;
    }
    var i := lo;
    while i != end
      invariant lo <= i <= end
      invariant dist == DistanceSum(g, s, lo, i + 1)
      decreases end - i
    {
      var d := g.distance(s[i].loc, s[i + 1].loc);
      if d.Num? {
        dist := dist + d.r;
      }
      i := i + 1;
    }
  }

  /** Splitting a range at a point `m` splits its length: the pair that
      ends at `m` falls in the first part, the pair that starts there in
      the second. */
  lemma {:induction false} DistanceSumSplit(g: Geo, s: seq<Point>, lo: int, m: int, hi: int)
    requires 0 <= lo <= m < hi <= |s|
    ensures DistanceSum(g, s, lo, hi) == DistanceSum(g, s, lo, m + 1) + DistanceSum(g, s, m, hi)
    decreases hi
  {
    if hi > m + 1 {
      DistanceSumSplit(g, s, lo, m, hi - 1);
    }
  }

  predicate NonNegativePairs(g: Geo, s: seq<Point>, lo: int, hi: int)
    requires 0 <= lo <= hi <= |s|
  {
    forall i | lo <= i < hi - 1 :: PairDistance(g, s, i).Num? ==> PairDistance(g, s, i).r >= 0.0
  }

  /** With distances that are never negative, the length of a range is
      never negative and never shrinks as the range is extended. */
  lemma {:induction false} DistanceSumGrows(g: Geo, s: seq<Point>, lo: int, m: int, hi: int)
    requires 0 <= lo <= m <= hi <= |s|
    requires NonNegativePairs(g, s, lo, hi)
    ensures 0.0 <= DistanceSum(g, s, lo, m) <= DistanceSum(g, s, lo, hi)
    decreases hi
  {
    if hi - lo >= 2 && hi > m {
      DistanceSumGrows(g, s, lo, m, hi - 1);
    } else if hi - lo >= 2 {
      DistanceSumGrows(g, s, lo, m - 1, hi - 1);
    }
  }

  /** The out-and-back walk A, B, A is twice the distance from A to B. */
  lemma OutAndBack(g: Geo, s: seq<Point>, x: real)
    requires |s| == 3 && s[2].loc == s[0].loc
    requires g.distance(s[0].loc, s[1].loc) == Num(x) && g.distance(s[1].loc, s[0].loc) == Num(x)
    ensures DistanceSum(g, s, 0, 3) == 2.0 * x
  {
  }

  // ---------------------------------------------------------------------
  // path_heading and path_speed
  // ---------------------------------------------------------------------

  datatype PairMeasure = Heading | Speed

  /** The seconds between two fixes: the microsecond difference as a double
      divided by 1E6. */
  function SecondsBetween(p: Point, q: Point): real {
    (q.timestamp - p.timestamp) as real / 1000000.0
  }

  function Measure(g: Geo, m: PairMeasure, p: Point, q: Point): Double {
    match m
    case Heading => g.heading(p.loc, q.loc)
    case Speed => g.speed(p.loc, q.loc, SecondsBetween(p, q))
  }

  /** One value per consecutive pair of the range, tagged with the time of
      the EARLIER point of the pair. */
  function PairSeries(g: Geo, m: PairMeasure, s: seq<Point>, lo: int, hi: int): seq<PathValue>
    requires 0 <= lo <= hi <= |s|
    decreases hi - lo
  {
    if hi - lo < 2 then []
    else PairSeries(g, m, s, lo, hi - 1) + [PathValue(Measure(g, m, s[hi - 2], s[hi - 1]), s[hi - 2].timestamp)]
  }

  /** The series has one value fewer than the range has points (none for
      fewer than two points), and value `k` is measured from point `lo + k`
      to point `lo + k + 1` and carries the time of point `lo + k`. */
  lemma {:induction false} PairSeriesAt(g: Geo, m: PairMeasure, s: seq<Point>, lo: int, hi: int)
    requires 0 <= lo <= hi <= |s|
    ensures |PairSeries(g, m, s, lo, hi)| == if hi - lo < 2 then 0 else hi - lo - 1
    ensures forall k | 0 <= k < |PairSeries(g, m, s, lo, hi)| ::
      PairSeries(g, m, s, lo, hi)[k] == PathValue(Measure(g, m, s[lo + k], s[lo + k + 1]), s[lo + k].timestamp)
    decreases hi - lo
  {
    if hi - lo >= 2 {
      PairSeriesAt(g, m, s, lo, hi - 1);
    }
  }

  /** Splitting the range at a point splits the series. */
  lemma {:induction false} PairSeriesSplit(g: Geo, m: PairMeasure, s: seq<Point>, lo: int, mid: int, hi: int)
    requires 0 <= lo <= mid < hi <= |s|
    ensures PairSeries(g, m, s, lo, hi) == PairSeries(g, m, s, lo, mid + 1) + PairSeries(g, m, s, mid, hi)
    decreases hi
  {
    if hi > mid + 1 {
      PairSeriesSplit(g, m, s, lo, mid, hi - 1);
    }
  }

  /** `path_heading`. */
  method PathHeading(g: Geo, s: seq<Point>, lo: int, hi: int) returns (out: seq<PathValue>)
    requires 0 <= lo <= hi <= |s|
    ensures out == PairSeries(g, Heading, s, lo, hi)
  {
    if hi - lo < 2 {
      return [];
    }
    var end := hi - 1;
    out := [];
    var i := lo;
    while i != end
      invariant lo <= i <= end
      invariant out == PairSeries(g, Heading, s, lo, i + 1)
      decreases end - i
    {
      var h := g.heading(s[i].loc, s[i + 1].loc);
      out := out + [PathValue(h, s[i].timestamp)];
      i := i + 1;
    }
  }

  /** `path_speed`: the speed over each pair, the seconds between the fixes
      taken from their microsecond difference. */
  method PathSpeed(g: Geo, s: seq<Point>, lo: int, hi: int) returns (out: seq<PathValue>)
    requires 0 <= lo <= hi <= |s|
    ensures out == PairSeries(g, Speed, s, lo, hi)
  {
    if hi - lo < 2 {
      return [];
    }
    var end := hi - 1;
    out := [];
    var i := lo;
    while i != end
      invariant lo <= i <= end
      invariant out == PairSeries(g, Speed, s, lo, i + 1)
      decreases end - i
    {
      var seconds := (s[i + 1].timestamp - s[i].timestamp) as real / 1000000.0;
      var v := g.speed(s[i].loc, s[i + 1].loc, seconds);
      out := out + [PathValue(v, s[i].timestamp)];
      i := i + 1;
    }
  }

  // ---------------------------------------------------------------------
  // path_cumulative_distance
  // ---------------------------------------------------------------------

  /** The running total of `path_cumulative_distance`, where (unlike
      `path_distance`) a NaN distance is added like any other and so turns
      the total into NaN. */
  function RunningDistance(g: Geo, s: seq<Point>, lo: int, hi: int): Double
    requires 0 <= lo <= hi <= |s|
    decreases hi - lo
  {
    if hi - lo < 2 then Num(0.0) else Add(RunningDistance(g, s, lo, hi - 1), PairDistance(g, s, hi - 2))
  }

  /** One running total per consecutive pair, tagged with the time of the
      LATER point of the pair. */
  function CumulativeSeries(g: Geo, s: seq<Point>, lo: int, hi: int): seq<PathValue>
    requires 0 <= lo <= hi <= |s|
    decreases hi - lo
  {
    if hi - lo < 2 then []
    else CumulativeSeries(g, s, lo, hi - 1) + [PathValue(RunningDistance(g, s, lo, hi), s[hi - 1].timestamp)]
  }

  /** `path_cumulative_distance`. */
  method PathCumulativeDistance(g: Geo, s: seq<Point>, lo: int, hi: int) returns (out: seq<PathValue>)
    requires 0 <= lo <= hi <= |s|
    ensures out == CumulativeSeries(g, s, lo, hi)
  {
    if hi - lo < 2 {
      return [];
    }
    var end := hi - 1;
    out := [];
    var dist := Num(0.0);
    var i := lo;
    while i != end
      invariant lo <= i <= end
      invariant dist == RunningDistance(g, s, lo, i + 1)
      invariant out == CumulativeSeries(g, s, lo, i + 1)
      decreases end - i
    {
      var d := g.distance(s[i].loc, s[i + 1].loc);
      dist := Add(dist, d);
      out := out + [PathValue(dist, s[i + 1].timestamp)];
      i := i + 1;
    }
  }

  /** The series has one value per pair; value `k` is the total up to point
      `lo + k + 1` and carries that point's time. */
  lemma {:induction false} CumulativeSeriesAt(g: Geo, s: seq<Point>, lo: int, hi: int)
    requires 0 <= lo <= hi <= |s|
    ensures |CumulativeSeries(g, s, lo, hi)| == if hi - lo < 2 then 0 else hi - lo - 1
    ensures forall k | 0 <= k < |CumulativeSeries(g, s, lo, hi)| ::
      CumulativeSeries(g, s, lo, hi)[k] == PathValue(RunningDistance(g, s, lo, lo + k + 2), s[lo + k + 1].timestamp)
    decreases hi - lo
  {
    if hi - lo >= 2 {
      CumulativeSeriesAt(g, s, lo, hi - 1);
    }
  }

  predicate NoNaNPairs(g: Geo, s: seq<Point>, lo: int, hi: int)
    requires 0 <= lo <= hi <= |s|
  {
    forall i | lo <= i < hi - 1 :: PairDistance(g, s, i).Num?
  }

  /** Without NaN distances the running total is the path distance, so the
      last cumulative value equals `path_distance` over the same range. */
  lemma {:induction false} RunningDistanceIsDistanceSum(g: Geo, s: seq<Point>, lo: int, hi: int)
    requires 0 <= lo <= hi <= |s|
    requires NoNaNPairs(g, s, lo, hi)
    ensures RunningDistance(g, s, lo, hi) == Num(DistanceSum(g, s, lo, hi))
    decreases hi - lo
  {
    if hi - lo >= 2 {
      RunningDistanceIsDistanceSum(g, s, lo, hi - 1);
    }
  }

  /** One NaN distance makes every later running total NaN. */
  lemma {:induction false} RunningDistanceNaNSticks(g: Geo, s: seq<Point>, lo: int, j: int, hi: int)
    requires 0 <= lo <= j && j + 2 <= hi <= |s|
    requires PairDistance(g, s, j).NaN?
    ensures RunningDistance(g, s, lo, hi).NaN?
    decreases hi
  {
    if hi > j + 2 {
      RunningDistanceNaNSticks(g, s, lo, j, hi - 1);
    }
  }

  // ---------------------------------------------------------------------
  // generate_path_summary
  // ---------------------------------------------------------------------

  /** The mean speed in km/h over `durationS` seconds, zero when no time
      passed: metres per second times 3.6. */
  function MeanSpeedKph(distanceM: real, durationS: int): (kph: real)
    ensures durationS > 0 ==> kph * durationS as real == 3.6 * distanceM
    ensures durationS <= 0 ==> kph == 0.0
  {
    var speed := if durationS > 0 then distanceM / durationS as real else 0.0;
    assert durationS > 0 ==> speed * durationS as real == distanceM;
    speed * 3.6
  }

  /** `generate_path_summary` as written: the end time is formatted from
      the point AT `hi`, one past the range, while the duration runs to the
      last point of the range, `hi - 1`. The caller must therefore leave a
      point after the range. */
  method GeneratePathSummary(g: Geo, civil: int -> string, s: seq<Point>, lo: int, hi: int) returns (summary: PathSummary)
    requires 0 <= lo <= hi <= |s|
    requires hi - lo >= 2 ==> hi < |s|
    ensures summary.points == hi - lo
    ensures hi - lo < 2 ==> summary == PathSummary(hi - lo, "", "", 0, 0.0, 0.0)
    ensures hi - lo >= 2 ==>
      && summary.startTime == TimeToStrUtc(civil, s[lo].timestamp)
      && summary.endTime == TimeToStrUtc(civil, s[hi].timestamp)
      && summary.durationS == DurationToSeconds(s[lo].timestamp, s[hi - 1].timestamp)
      && summary.distanceM == DistanceSum(g, s, lo, hi)
      && summary.meanSpeedKph == MeanSpeedKph(summary.distanceM, summary.durationS)
  {
    summary := PathSummary(hi - lo, "", "", 0, 0.0, 0.0);
    if hi - lo < 2 {
      return;
    }
    var startTime := TimeToStrUtc(civil, s[lo].timestamp);
    var endTime := TimeToStrUtc(civil, s[hi].timestamp);
    var durationS := DurationToSeconds(s[lo].timestamp, s[hi - 1].timestamp);
    var distanceM := PathDistance(g, s, lo, hi);
    var seconds := DurationToSeconds(s[lo].timestamp, s[hi - 1].timestamp);
    summary := PathSummary(hi - lo, startTime, endTime, durationS, distanceM, MeanSpeedKph(distanceM, seconds));
  }

  /** The summary as its record promises: start and end times are those of
      the first and last points of the range, so it can be taken of a whole
      path. */
  method GeneratePathSummaryIntended(g: Geo, civil: int -> string, s: seq<Point>, lo: int, hi: int) returns (summary: PathSummary)
    requires 0 <= lo <= hi <= |s|
    ensures summary.points == hi - lo
    ensures hi - lo < 2 ==> summary == PathSummary(hi - lo, "", "", 0, 0.0, 0.0)
    ensures hi - lo >= 2 ==>
      && summary.startTime == TimeToStrUtc(civil, s[lo].timestamp)
      && summary.endTime == TimeToStrUtc(civil, s[hi - 1].timestamp)
      && summary.durationS == DurationToSeconds(s[lo].timestamp, s[hi - 1].timestamp)
      && summary.distanceM == DistanceSum(g, s, lo, hi)
      && summary.meanSpeedKph == MeanSpeedKph(summary.distanceM, summary.durationS)
  {
    summary := PathSummary(hi - lo, "", "", 0, 0.0, 0.0);
    if hi - lo < 2 {
      return;
    }
    var startTime := TimeToStrUtc(civil, s[lo].timestamp);
    var endTime := TimeToStrUtc(civil, s[hi - 1].timestamp);
    var durationS := DurationToSeconds(s[lo].timestamp, s[hi - 1].timestamp);
    var distanceM := PathDistance(g, s, lo, hi);
    summary := PathSummary(hi - lo, startTime, endTime, durationS, distanceM, MeanSpeedKph(distanceM, durationS));
  }

  /** Summarising the first two of three points one microsecond apart:
      the end time of the summary as written is not the text of the last
      summarised point's time (it is that of the third point). */
  method SummaryEndTimeReadsPastRange(g: Geo, civil: int -> string, s: seq<Point>) returns (summary: PathSummary)
    requires |s| == 3 && s[1].timestamp == 1 && s[2].timestamp == 2
    ensures summary.points == 2 && summary.startTime == TimeToStrUtc(civil, s[0].timestamp)
    ensures summary.endTime != TimeToStrUtc(civil, s[1].timestamp)
  {
    summary := GeneratePathSummary(g, civil, s, 0, 2);
    TimeTextFraction(civil, 2);
    TimeTextFraction(civil, 1);
  }
}
