/** The three-point window filters over a range `[lo, hi)` of derived
    values: the [1, 2, 1] / 4 smoothing filter and the two first
    differences. Each output is centred on an input value and carries its
    time. */
module PathFilters {
  import opened Numeric
  import opened PathAnalytics

  datatype Filter = Triangle | ForwardDifference | CentralDifference

  /** The filter applied to the window centred on `v[i]`. */
  function FilterAt(f: Filter, v: seq<PathValue>, i: int): PathValue
    requires 1 <= i < |v| - 1
  {
    var prev, here, next := v[i - 1].value, v[i].value, v[i + 1].value;
    var value := match f
      case Triangle => Scale(0.25, Add(Add(prev, Scale(2.0, here)), next))
      case ForwardDifference => Sub(next, prev)
      case CentralDifference => Scale(0.5, Sub(next, prev));
    PathValue(value, v[i].timestamp)
  }

  /** The filter applied at the centres `a` to `b - 1`, in order. */
  function Filtered(f: Filter, v: seq<PathValue>, a: int, b: int): seq<PathValue>
    requires 1 <= a <= b <= |v| - 1
    decreases b - a
  {
    if a == b then [] else Filtered(f, v, a, b - 1) + [FilterAt(f, v, b - 1)]
  }

  lemma {:induction false} FilteredAt(f: Filter, v: seq<PathValue>, a: int, b: int)
    requires 1 <= a <= b <= |v| - 1
    ensures |Filtered(f, v, a, b)| == b - a
    ensures forall k | 0 <= k < b - a :: Filtered(f, v, a, b)[k] == FilterAt(f, v, a + k)
    decreases b - a
  {
    if a < b {
      FilteredAt(f, v, a, b - 1);
    }
  }

  lemma {:induction false} FilteredCons(f: Filter, v: seq<PathValue>, a: int, b: int)
    requires 1 <= a < b <= |v| - 1
    ensures Filtered(f, v, a, b) == [FilterAt(f, v, a)] + Filtered(f, v, a + 1, b)
    decreases b - a
  {
    if a + 1 < b {
      FilteredCons(f, v, a, b - 1);
    }
  }

  /** Filtering reads only the window values: the same centres over a
      slice `v[lo..hi]` holding them give the same output. */
  lemma {:induction false} FilteredSlice(f: Filter, v: seq<PathValue>, lo: int, hi: int, a: int, b: int)
    requires 0 <= lo && lo + 1 <= a <= b <= hi - 1 && hi <= |v|
    ensures Filtered(f, v, a, b) == Filtered(f, v[lo..hi], a - lo, b - lo)
    decreases b - a
  {
    if a < b {
      FilteredSlice(f, v, lo, hi, a, b - 1);
      assert FilterAt(f, v, b - 1) == FilterAt(f, v[lo..hi], b - 1 - lo);
    }
  }

  // ---------------------------------------------------------------------
  // smooth
  // ---------------------------------------------------------------------

  /** `smooth` as written: for at least three values the loop runs from
      `lo` to `hi - 2`, so it emits one value more than the interior has
      and its first window reaches back to `v[lo - 1]`, before the range. */
  function SmoothAsWritten(v: seq<PathValue>, lo: int, hi: int): seq<PathValue>
    requires 0 <= lo <= hi <= |v|
    requires hi - lo >= 3 ==> lo >= 1
  {
    if hi - lo < 3 then [] else Filtered(Triangle, v, lo, hi - 1)
  }

  /** The smoothing the filter's design calls for: one value per interior
      point `lo + 1` to `hi - 2`, two fewer than the input. */
  function SmoothInterior(v: seq<PathValue>, lo: int, hi: int): seq<PathValue>
    requires 0 <= lo <= hi <= |v|
  {
    if hi - lo < 3 then [] else Filtered(Triangle, v, lo + 1, hi - 1)
  }

  /** `smooth`: the caller must leave a value before the range. */
  method Smooth(v: seq<PathValue>, lo: int, hi: int) returns (out: seq<PathValue>)
    requires 0 <= lo <= hi <= |v|
    requires hi - lo >= 3 ==> lo >= 1
    ensures out == SmoothAsWritten(v, lo, hi)
  {
    if hi - lo < 3 {
      return [];
    }
    out := [];
    var i := lo;
    while i != hi - 1
      invariant lo <= i <= hi - 1
      invariant out == Filtered(Triangle, v, lo, i)
      decreases hi - 1 - i
    {
      var value := Scale(0.25, Add(Add(v[i - 1].value, Scale(2.0, v[i].value)), v[i + 1].value));
      out := out + [PathValue(value, v[i].timestamp)];
      i := i + 1;
    }
  }

  /** The output as written is the intended interior output with one
      extra value in front, centred on `v[lo]` and reading `v[lo - 1]`. */
  lemma SmoothAsWrittenLeadsInterior(v: seq<PathValue>, lo: int, hi: int)
    requires 1 <= lo && lo + 3 <= hi <= |v|
    ensures SmoothAsWritten(v, lo, hi) == [FilterAt(Triangle, v, lo)] + SmoothInterior(v, lo, hi)
  {
    FilteredCons(Triangle, v, lo, hi - 1);
  }

  /** Two inputs that agree on the range `[1, 4)` and differ only before
      it give different smoothed outputs as written. */
  lemma SmoothAsWrittenReadsBeforeRange(v: seq<PathValue>, w: seq<PathValue>)
    requires |v| == 4 && |w| == 4 && v[1..] == w[1..]
    requires v[0].value == Num(0.0) && w[0].value == Num(4.0)
    requires v[1].value == Num(0.0) && v[2].value == Num(0.0)
    ensures SmoothAsWritten(v, 1, 4) != SmoothAsWritten(w, 1, 4)
  {
    FilteredAt(Triangle, v, 1, 3);
    FilteredAt(Triangle, w, 1, 3);
    assert w[1] == v[1] && w[2] == v[2];
    assert SmoothAsWritten(v, 1, 4)[0].value == Num(0.0);
    assert SmoothAsWritten(w, 1, 4)[0].value == Num(1.0);
  }

  /** The intended smoothing shortens the input by exactly two, gives each
      interior point the [1, 2, 1] / 4 average of itself and its two
      neighbours, and depends on nothing outside the range. */
  lemma SmoothInteriorShape(v: seq<PathValue>, lo: int, hi: int)
    requires 0 <= lo && lo + 3 <= hi <= |v|
    ensures |SmoothInterior(v, lo, hi)| == hi - lo - 2
    ensures forall k | 0 <= k < hi - lo - 2 ::
      SmoothInterior(v, lo, hi)[k] == PathValue(
        Scale(0.25, Add(Add(v[lo + k].value, Scale(2.0, v[lo + k + 1].value)), v[lo + k + 2].value)),
        v[lo + k + 1].timestamp)
    ensures SmoothInterior(v, lo, hi) == SmoothInterior(v[lo..hi], 0, hi - lo)
  {
    FilteredAt(Triangle, v, lo + 1, hi - 1);
    FilteredSlice(Triangle, v, lo, hi, lo + 1, hi - 1);
  }

  // ---------------------------------------------------------------------
  // first_forward_difference and first_central_difference
  // ---------------------------------------------------------------------

  /** `first_forward_difference`: the same window as `smooth`, each value
      being `next - prev`. */
  function ForwardDifferenceSeries(v: seq<PathValue>, lo: int, hi: int): seq<PathValue>
    requires 0 <= lo <= hi <= |v|
    requires hi - lo >= 3 ==> lo >= 1
  {
    if hi - lo < 3 then [] else Filtered(ForwardDifference, v, lo, hi - 1)
  }

  /** The forward difference the window calls for: one value per interior
      point `lo + 1` to `hi - 2`, two fewer than the input. */
  function ForwardDifferenceInterior(v: seq<PathValue>, lo: int, hi: int): seq<PathValue>
    requires 0 <= lo <= hi <= |v|
  {
    if hi - lo < 3 then [] else Filtered(ForwardDifference, v, lo + 1, hi - 1)
  }

  /** `first_central_difference`: centres `lo + 1` to `hi - 2`, each value
      `(next - prev) / 2`. */
  function CentralDifferenceSeries(v: seq<PathValue>, lo: int, hi: int): seq<PathValue>
    requires 0 <= lo <= hi <= |v|
  {
    if hi - lo < 3 then [] else Filtered(CentralDifference, v, lo + 1, hi - 1)
  }

  /** `first_forward_difference`; like `smooth` it reads `v[lo - 1]`. */
  method FirstForwardDifference(v: seq<PathValue>, lo: int, hi: int) returns (out: seq<PathValue>)
    requires 0 <= lo <= hi <= |v|
    requires hi - lo >= 3 ==> lo >= 1
    ensures out == ForwardDifferenceSeries(v, lo, hi)
  {
    if hi - lo < 3 {
      return [];
    }
    out := [];
    var i := lo;
    while i != hi - 1
      invariant lo <= i <= hi - 1
      invariant out == Filtered(ForwardDifference, v, lo, i)
      decreases hi - 1 - i
    {
      var value := Sub(v[i + 1].value, v[i - 1].value);
      out := out + [PathValue(value, v[i].timestamp)];
      i := i + 1;
    }
  }

  /** The forward difference as written is the intended interior one with
      one extra value in front, centred on `v[lo]` and reading `v[lo - 1]`. */
  lemma ForwardAsWrittenLeadsInterior(v: seq<PathValue>, lo: int, hi: int)
    requires 1 <= lo && lo + 3 <= hi <= |v|
    ensures ForwardDifferenceSeries(v, lo, hi) == [FilterAt(ForwardDifference, v, lo)] + ForwardDifferenceInterior(v, lo, hi)
  {
    FilteredCons(ForwardDifference, v, lo, hi - 1);
  }

  /** Two inputs that agree on the range `[1, 4)` and differ only before
      it give different forward differences as written. */
  lemma ForwardAsWrittenReadsBeforeRange(v: seq<PathValue>, w: seq<PathValue>)
    requires |v| == 4 && |w| == 4 && v[1..] == w[1..]
    requires v[0].value == Num(0.0) && w[0].value == Num(1.0) && v[2].value == Num(0.0)
    ensures ForwardDifferenceSeries(v, 1, 4) != ForwardDifferenceSeries(w, 1, 4)
  {
    FilteredAt(ForwardDifference, v, 1, 3);
    FilteredAt(ForwardDifference, w, 1, 3);
    assert w[2] == v[2];
    assert ForwardDifferenceSeries(v, 1, 4)[0].value == Num(0.0);
    assert ForwardDifferenceSeries(w, 1, 4)[0].value == Num(-1.0);
  }

  /** The intended forward difference shortens the input by exactly two,
      gives each interior point the difference of its two neighbours, and
      depends on nothing outside the range. */
  lemma ForwardInteriorShape(v: seq<PathValue>, lo: int, hi: int)
    requires 0 <= lo && lo + 3 <= hi <= |v|
    ensures |ForwardDifferenceInterior(v, lo, hi)| == hi - lo - 2
    ensures forall k | 0 <= k < hi - lo - 2 ::
      ForwardDifferenceInterior(v, lo, hi)[k] == PathValue(Sub(v[lo + k + 2].value, v[lo + k].value), v[lo + k + 1].timestamp)
    ensures ForwardDifferenceInterior(v, lo, hi) == ForwardDifferenceInterior(v[lo..hi], 0, hi - lo)
  {
    FilteredAt(ForwardDifference, v, lo + 1, hi - 1);
    FilteredSlice(ForwardDifference, v, lo, hi, lo + 1, hi - 1);
  }

  /** `first_central_difference`. */
  method FirstCentralDifference(v: seq<PathValue>, lo: int, hi: int) returns (out: seq<PathValue>)
    requires 0 <= lo <= hi <= |v|
    ensures out == CentralDifferenceSeries(v, lo, hi)
  {
    if hi - lo < 3 {
      return [];
    }
    out := [];
    var i := lo + 1;
    while i != hi - 1
      invariant lo + 1 <= i <= hi - 1
      invariant out == Filtered(CentralDifference, v, lo + 1, i)
      decreases hi - 1 - i
    {
      var value := Scale(0.5, Sub(v[i + 1].value, v[i - 1].value));
      out := out + [PathValue(value, v[i].timestamp)];
      i := i + 1;
    }
  }

  /** The window lengths: for at least three values the forward difference
      gives one value fewer than the input and the central difference two
      fewer; for fewer, both give nothing. The central difference is the
      forward one shifted by one place and halved, with the same times. */
  lemma DifferencesAlign(v: seq<PathValue>, lo: int, hi: int)
    requires 0 <= lo <= hi <= |v|
    requires hi - lo >= 3 ==> lo >= 1
    ensures |ForwardDifferenceSeries(v, lo, hi)| == if hi - lo < 3 then 0 else hi - lo - 1
    ensures |CentralDifferenceSeries(v, lo, hi)| == if hi - lo < 3 then 0 else hi - lo - 2
    ensures forall k | 0 <= k < |CentralDifferenceSeries(v, lo, hi)| ::
      && CentralDifferenceSeries(v, lo, hi)[k].timestamp == ForwardDifferenceSeries(v, lo, hi)[k + 1].timestamp
      && CentralDifferenceSeries(v, lo, hi)[k].value == Scale(0.5, ForwardDifferenceSeries(v, lo, hi)[k + 1].value)
  {
    if hi - lo >= 3 {
      var forward, central := ForwardDifferenceSeries(v, lo, hi), CentralDifferenceSeries(v, lo, hi);
      FilteredAt(ForwardDifference, v, lo, hi - 1);
      FilteredAt(CentralDifference, v, lo + 1, hi - 1);
      forall k | 0 <= k < |central|
        ensures central[k].timestamp == forward[k + 1].timestamp
        ensures central[k].value == Scale(0.5, forward[k + 1].value)
      {
        assert central[k] == FilterAt(CentralDifference, v, lo + 1 + k);
        assert forward[k + 1] == FilterAt(ForwardDifference, v, lo + k + 1);
      }
    }
  }
}
