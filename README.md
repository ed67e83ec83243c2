# gps_path_tools in Dafny

A model of the header-only C++ library `gps_path_tools`. The library works
on GPS tracks ("paths"): sequences of timestamped locations read from and
written to GPX track files. This model covers:

- the calendar and time helpers: `days_from_epoch`, `timegm`,
  `duration_to_seconds`, `duration_to_str` and the microsecond tail of
  `time_to_str_utc`;
- `cardinal_direction`;
- the path functions: `path_distance`, `path_heading`, `path_speed`,
  `path_cumulative_distance`, `find_closest_path_point_time`,
  `find_closest_path_point_dist`, `find_stationary_points` and
  `generate_path_summary`;
- the window filters `smooth`, `first_forward_difference` and
  `first_central_difference`;
- the GPX reader `load_gpx_trk` and the GPX writer `save_gpx_trk`.

Modelling choices:

- A `path_time` is a whole number of microseconds since the UNIX epoch.
- A double is a real number or NaN (`Numeric.Double`).
- C++ integer `/` and `%` truncate toward zero (`Numeric.TDiv`, `Numeric.TMod`).
- A path range `[start_it, end_it)` is a sequence with two indices `lo`
  and `hi`. A returned iterator is an index, with `hi` for `end_it`.
- Code that loops in the source is a method with loop invariants. Each
  method is proved against a specification function, and the lemmas beside
  it state what that function promises.
- The trigonometric formulas are parameters: the `GeoMath.Geo` record
  holds `distance`, `heading` and `speed`.
- Number formatting and parsing are parameters too: the `GpxIo.Parsers`
  and `GpxIo.Formats` records hold `sscanf`, `atof`, `str_to_time_utc`,
  the `<<` of a double and `gmtime` with `put_time`.

The modules follow the program: `Numeric`, `TimeCodec`, `GeoMath`,
`PathAnalytics`, `PathSearch`, `PathFilters`, `GpxIo`, and
`GpxRoundTrip`. `GpxRoundTrip` proves that reading a written file gives
the points back.

## Model

| member | source | states |
|---|---|---|
| TimeCodec.DayOfYear | gps_path_tools.h:149 | a valid month and day give a day of the March-based year in 0..365 |
| TimeCodec.DayOfEra | gps_path_tools.h:150 | a year of era in 0..399 and a day in 0..365 give a day of era in 0..146096 |
| TimeCodec.YearOfEra | gps_path_tools.h:147-148 | the year of era is in 0..399 for non-negative years, but is the negative year itself for years -399..-1 (the truncating era) |
| TimeCodec.EpochAgreesWithCivil | gps_path_tools.h:144-152 | `days_from_epoch` agrees with the published days-from-civil algorithm whenever the March-shifted year is not negative |
| TimeCodec.EpochCalendar | gps_path_tools.h:144-152 | 1 January 1970 is day 0; from year 1 on, consecutive 1 Januaries are 365 or 366 days apart by the Gregorian leap rule, and consecutive month starts are as many days apart as the month has |
| TimeCodec.CivilEpoch | gps_path_tools.h:144-152 | the corrected day count puts 1 January 1970 at day 0 |
| TimeCodec.CivilYearLength | gps_path_tools.h:144-152 | the corrected day count gives every year, negative ones included, 365 or 366 days by the leap rule |
| TimeCodec.CivilMonthLength | gps_path_tools.h:144-152 | the corrected day count gives every month of every year its calendar length, including 29 days for a leap February |
| TimeCodec.EpochMissesLeapDayOfYearZero | gps_path_tools.h:146-148 | as written, February of the leap year 0 is 28 days long, where the calendar and the corrected count give 29 |
| TimeCodec.CarryMonths | gps_path_tools.h:157-169 | carrying whole years out of `tm_mon` keeps the month count: the result is the floor quotient by 12 and a month in 0..11 |
| TimeCodec.Timegm | gps_path_tools.h:155-173 | the seconds are those of the day that `days_from_epoch` gives for the normalised year and month, plus the hours, minutes and seconds of the `tm` |
| TimeCodec.DurationToSeconds | gps_path_tools.h:248-251 | the whole seconds between two times, truncated toward zero: for t1 <= t2 it is the largest whole second count not above the difference, and for t2 < t1 the smallest not below it |
| TimeCodec.NatToStr | gps_path_tools.h:240 | the decimal text of a count is all digits, reads back as the count, and has one digit exactly when the count is below 10 |
| TimeCodec.PadLeft | gps_path_tools.h:240 | zero-padding to a width gives text of that width, or the text itself when it is already wider |
| TimeCodec.PadLeftShape | gps_path_tools.h:240 | the padded text ends in the whole text and everything in front of it is '0', so a minus sign stays behind the zeros (-5 padded to 6 is `0000-5`) |
| TimeCodec.LeadingZerosValue | gps_path_tools.h:240 | leading zeros do not change the value a digit string reads back as |
| TimeCodec.PadTwoReadsBack | gps_path_tools.h:240 | a number below 100 padded to two places is two digits that read back as the number |
| TimeCodec.DurationTextReadsBack | gps_path_tools.h:229-243 | for a non-negative duration the text is `H:MM:SS`: three digit fields, minutes and seconds below 60, adding up to `duration_to_seconds` |
| TimeCodec.FractionSuffixReadsBack | gps_path_tools.h:218-221 | the tail is `.`, six digits and `Z`, and the six digits read back as the microsecond count |
| TimeCodec.FractionSuffixIsPlain | gps_path_tools.h:221 | the tail never holds `<` or `>`, whatever the count |
| TimeCodec.TimeTextFraction | gps_path_tools.h:205-223 | for a time after the epoch, the text is the calendar text of the whole seconds, followed by `.`, six digits that read back as the microseconds within the second, and `Z` |
| GeoMath.NormalizeBearing | gps_path_tools.h:300-303 | the bearing reduced by whole turns into [0, 360), unchanged when already there |
| GeoMath.Delta | gps_path_tools.h:309 | the angular difference truncated to whole degrees, within one degree below the exact difference |
| GeoMath.NearestCardinal | gps_path_tools.h:305-315 | the scan returns the first table entry whose truncated delta is smallest |
| GeoMath.FirstNearestIsUnique | gps_path_tools.h:305-315 | the first-nearest entry is determined: two entries meeting the description are the same |
| GeoMath.CardinalDirection | gps_path_tools.h:281-318 | the answer is one of the eight compass names, the name of the first nearest anchor of the table as written to the normalised bearing |
| GeoMath.CardinalExamplesNorthEast | test/test_gps_path_tools.cpp:381-382 | 1 degree gives "N" and 45 gives "NE" |
| GeoMath.CardinalExampleEast | test/test_gps_path_tools.cpp:383 | 90 degrees gives "E" |
| GeoMath.CardinalExampleSouthEast | test/test_gps_path_tools.cpp:384 | 134 degrees gives "SE" |
| GeoMath.CardinalExamplesSouth | test/test_gps_path_tools.cpp:385-386 | 180 degrees gives "S" and 215 gives "SW" |
| GeoMath.CardinalExampleWest | test/test_gps_path_tools.cpp:387 | 269 degrees gives "W" |
| GeoMath.CardinalExamplesNorthWest | test/test_gps_path_tools.cpp:388-389 | 316 and 324 degrees give "NW" |
| GeoMath.CardinalExamplesNorth | test/test_gps_path_tools.cpp:390-391 | 350 and 359 degrees give "N" |
| GeoMath.CardinalWrapExamples | test/test_gps_path_tools.cpp:392-393 | 360 and -20 degrees, wrapped by `fmod` to 0 and 340, both give "N" |
| GeoMath.CardinalSkewAt160 | gps_path_tools.h:289-297 | at 160 degrees the table as written answers "SE", 25 degrees away, where a table with "S" at 180 answers "S", 20 degrees away |
| GeoMath.CompassDirection | gps_path_tools.h:281-318 | the lookup with the "S" anchor at 180 also answers one of the eight names, the first nearest anchor |
| GeoMath.CompassWithinHalfSector | gps_path_tools.h:289-297 | with anchors every 45 degrees the chosen anchor is never more than 22 whole degrees from the bearing |
| PathAnalytics.PathDistance | gps_path_tools.h:410-437 | the distance of a range is the sum of the distances of its consecutive pairs, a NaN pair counting as zero; 0 for fewer than two points |
| PathAnalytics.DistanceSumSplit | gps_path_tools.h:410-437 | splitting a range at a point splits its distance into the two parts sharing that point |
| PathAnalytics.DistanceSumGrows | gps_path_tools.h:410-437 | with non-negative pair distances the distance is non-negative and never shrinks as the range grows |
| PathAnalytics.OutAndBack | gps_path_tools.h:410-437 | walking from A to B and back measures twice the distance from A to B |
| PathAnalytics.PathHeading | gps_path_tools.h:442-464 | the result is the heading series: one value per consecutive pair |
| PathAnalytics.PathSpeed | gps_path_tools.h:469-491 | the result is the speed series: one value per pair, the seconds taken from the microsecond difference |
| PathAnalytics.PairSeriesAt | gps_path_tools.h:442-491 | the heading and speed series have one value fewer than the range has points (none for fewer than two); value k is measured from point lo+k to lo+k+1 and carries the time of point lo+k |
| PathAnalytics.PairSeriesSplit | gps_path_tools.h:442-491 | splitting the range at a point splits the series |
| PathAnalytics.PathCumulativeDistance | gps_path_tools.h:496-521 | the result is the cumulative series: one running total per pair |
| PathAnalytics.CumulativeSeriesAt | gps_path_tools.h:496-521 | the cumulative series has one value per pair; value k is the running total up to point lo+k+1 and carries that point's time |
| PathAnalytics.RunningDistanceIsDistanceSum | gps_path_tools.h:410-437 | without NaN distances the running total equals `path_distance` over the same range |
| PathAnalytics.RunningDistanceNaNSticks | gps_path_tools.h:496-521 | one NaN pair distance makes every later running total NaN |
| PathAnalytics.MeanSpeedKph | gps_path_tools.h:669-672 | the mean speed times the duration is 3.6 times the distance when time passed, and 0 otherwise |
| PathAnalytics.GeneratePathSummary | gps_path_tools.h:656-675 | as written: the point count; empty strings and zeros below two points; otherwise start time text of the first point, end time text of the point at `end_it`, whole-second duration to the last point, path distance and mean speed |
| PathAnalytics.GeneratePathSummaryIntended | gps_path_tools.h:656-675 | the same summary with the end time taken from the last point of the range, callable on a whole path |
| PathAnalytics.SummaryEndTimeReadsPastRange | gps_path_tools.h:656-675 | the summary as written of the first two of three points one microsecond apart has an end time that is not the text of the second point's time |
| PathSearch.FindClosestPathPointTime | gps_path_tools.h:526-545 | as written: `end_it` for an empty range, otherwise always the first point |
| PathSearch.FindNearestInTime | gps_path_tools.h:526-545 | the search as intended returns the first point whose time is nearest the target, `end_it` for an empty range |
| PathSearch.ClosestTimeMissesLaterPoint | gps_path_tools.h:536-538 | for points at 0 and 10 microseconds and target 10 the nearest point is the second, so the first-point answer as written is wrong |
| PathSearch.FindClosestPathPointDist | gps_path_tools.h:550-569 | `end_it` for an empty range; otherwise the first point of least distance to the target (NaN never wins; a NaN first distance keeps the first point) |
| PathSearch.FirstClosestIsUnique | gps_path_tools.h:550-569 | the answer is determined: two points meeting the description are the same |
| PathSearch.ExactHitIsFound | gps_path_tools.h:550-569 | a point at distance 0 with every other distance positive is the one found |
| PathSearch.FindStationaryPoints | gps_path_tools.h:574-603 | the result is that of the single forward scan over the range |
| PathSearch.StationaryPointsShape | gps_path_tools.h:574-603 | the result is either the sentinel pair (`end_it`, `end_it`) or a segment (a, b) inside the range: points a+2 to b lie within the radius of a (point a+1 is compared with a only when a is the range start, since after `start = i` the next pass compares the point after next), point b+1 lies outside it, and some point from a to b-1 is more than the time limit after a |
| PathSearch.StationaryEmptyRangeReadsPastEnd | gps_path_tools.h:582-584 | on an empty range the loop guard holds on entry and the first pass reads the point after `end_it` |
| PathSearch.FindStationaryPointsIntended | gps_path_tools.h:574-603 | the search as intended: (`end_it`, `end_it`) for an empty range, otherwise the scan as written; either the sentinel or a stationary segment |
| PathSearch.NoStopWithoutTime | gps_path_tools.h:574-603 | a path on which no point is more than the time limit after an earlier one has no stationary segment |
| PathFilters.FilteredAt | gps_path_tools.h:609-654 | a window filter over centres a..b-1 gives b-a values, value k being the filter at centre a+k with that centre's time |
| PathFilters.Smooth | gps_path_tools.h:609-624 | the result is the smoothing as written: nothing below three values, otherwise one [1,2,1]/4 value per centre from `start_it` to `end_it - 2` |
| PathFilters.SmoothAsWrittenLeadsInterior | gps_path_tools.h:609-624 | the output as written is the intended interior output with one extra value in front, centred on `start_it` |
| PathFilters.SmoothAsWrittenReadsBeforeRange | gps_path_tools.h:616-618 | two inputs that agree on the range and differ before it give different smoothed outputs as written |
| PathFilters.SmoothInteriorShape | gps_path_tools.h:609-624 | the intended smoothing is two values shorter than its input, gives each interior point the [1,2,1]/4 average with its time, and reads nothing outside the range |
| PathFilters.FirstForwardDifference | gps_path_tools.h:626-639 | the result is the forward-difference series as written: next minus previous at each centre from `start_it` to `end_it - 2`, the same window as `smooth` |
| PathFilters.ForwardAsWrittenLeadsInterior | gps_path_tools.h:626-639 | the forward difference as written is the intended interior one with one extra value in front, centred on `start_it` |
| PathFilters.ForwardAsWrittenReadsBeforeRange | gps_path_tools.h:633-634 | two inputs that agree on the range and differ before it give different forward differences as written |
| PathFilters.ForwardInteriorShape | gps_path_tools.h:626-639 | the intended forward difference is two values shorter than its input, gives each interior point next minus previous with its time, and reads nothing outside the range |
| PathFilters.FirstCentralDifference | gps_path_tools.h:641-654 | the result is the central-difference series: half of next minus previous at each interior centre |
| PathFilters.DifferencesAlign | gps_path_tools.h:626-654 | for three or more values the forward difference has one value fewer than the input and the central difference two fewer, for fewer values both are empty, and each central value is the next forward value halved with the same time |
| GpxIo.RunFromAppend | gps_path_io.h:73-150 | reading `a + b` is reading `a`, then `b` from the state reached |
| GpxIo.StepExtends | gps_path_io.h:73-150 | one pass of the loop keeps the points read so far and appends at most the next numbered one |
| GpxIo.RunFromExtends | gps_path_io.h:73-150 | reading never removes or changes a point once appended, and keeps the numbering 0, 1, 2, … |
| GpxIo.LoadGpxTrk | gps_path_io.h:38-153 | a file that cannot be opened gives an empty path; otherwise the result is the decoder run over the file's characters; either way the points are numbered 0 to n-1 |
| GpxIo.WritePoint | gps_path_io.h:190-198 | one loop pass appends the point's block: the `trkpt` tag, the `ele` and `time` lines and the closing tag |
| GpxIo.WriteBlocks | gps_path_io.h:178-199 | the header followed by one block per point of the range, in order |
| GpxIo.SaveGpxTrk | gps_path_io.h:155-204 | succeeds exactly when the range is not empty and the file opens, and then writes the header, one block per point and the footer; otherwise writes nothing |
| GpxRoundTrip.HeaderRun | gps_path_io.h:160-166 | reading the header leaves the decoder idle with no points |
| GpxRoundTrip.FooterIsQuiet | gps_path_io.h:168-170 | the footer holds only tags that neither start nor end a track point |
| GpxRoundTrip.TrkptLineRun | gps_path_io.h:127-130 | reading the `trkpt` tag line sets the in-point flag and the coordinates `sscanf` converts |
| GpxRoundTrip.EleLineRun | gps_path_io.h:137-139 | reading the `ele` line inside a point sets the elevation to `atof` of the written number |
| GpxRoundTrip.TimeLineRun | gps_path_io.h:134-136 | reading the `time` line inside a point sets the time to `str_to_time_utc` of the written text |
| GpxRoundTrip.TrkptCloseRun | gps_path_io.h:142-145 | the closing `trkpt` tag appends one point numbered with the next sequence number |
| GpxRoundTrip.PointBlockRun | gps_path_io.h:190-198 | reading a written point block appends exactly one point, read back from that block |
| GpxRoundTrip.WrittenRun | gps_path_io.h:178-199 | after the header and the blocks of a range the decoder holds one read-back point per point, in order |
| GpxRoundTrip.DecodeEncode | gps_path_io.h:38-204 | loading a file written for n points gives n points, in order, numbered 0 to n-1, each read back from its block |
| GpxRoundTrip.DecodeEncodeExact | gps_path_io.h:38-204 | with parsers that invert the writer's number and time formats at the coordinates, elevations and times of the range, loading gives back exactly the points written, renumbered from 0 |

## Left out

- The spherical formulas `distance`, `heading` and `speed` are
  floating-point trigonometry. They are parameters of the model
  (`GeoMath.Geo`), and nothing is assumed about them except that they may
  give NaN.
- `speed` is a third, independent parameter. The source computes it as
  `distance` divided by the seconds (gps_path_tools.h:378-381); the model
  does not tie the two.
- `distance_vec`, `hav`, `ahav`, `to_radians`, `to_degrees`, `dd_to_ddm`
  and `ddm_to_dd` are not part of this model. They only serve the
  spherical formulas above or convert units.
- Rounding of doubles and infinities are not modelled: a computed double
  (a distance, heading, speed or derived value) is an exact real or NaN.
- Coordinates, elevations and bearings are plain reals. A NaN latitude,
  longitude or elevation, such as `sscanf` or `atof` can produce from the
  text "nan", cannot be represented.
- `int` and `long` overflow are not modelled. The day count, the seconds
  of `timegm` and the microsecond arithmetic are unbounded integers.
- `str_to_time_utc`, `gmtime` with `put_time`, `sscanf`, `atof` and the
  `<<` of a double with precision 10 are parameters (`GpxIo.Parsers`,
  `GpxIo.Formats`). Their text formats are not modelled.
- `time_to_str_utc` is modelled for its microsecond tail. The calendar
  text before it comes from the `gmtime` parameter.
- File I/O: `load_gpx_trk` takes the file's text as an optional string,
  `None` meaning the file does not open. `save_gpx_trk` takes a flag
  saying whether the file opens, and returns the text it writes.
- `load_csv_qd`, `print_path_summary`, `to_string`, `mps_to_kph`,
  `kph_to_mps` and `time_to_us` are not part of
  this model. They are I/O or one-line unit conversions; `mps_to_kph`
  appears as the factor 3.6 in `PathAnalytics.MeanSpeedKph`.
- The header and footer of `save_gpx_trk` are built from a list of
  pieces, each tag or text run on its own. The text is the same as the
  source's literal, indentation included.
- GpxRoundTrip.DecodeEncode: assumes the number format never writes `<`
  or `>` and the calendar text never writes `<`. Any real number format
  meets this, but it is a requirement on a parameter.
- TimeCodec.DurationTextReadsBack: stated only for t1 <= t2. For a
  negative duration the source prints negative fields, which the model
  computes but no lemma describes.
- TimeCodec.TimeTextFraction: stated only for times at or after the
  epoch. Before it, the truncating `to_time_t` gives a negative
  microsecond count, which the model computes but no lemma reads back.
- TimeCodec.EpochCalendar: stated from year 1 on. Before that the
  truncating era misplaces days (see Findings); the corrected count is
  proved for all years.
- PathSearch.FindStationaryPoints: requires a non-empty range. The
  source has no guard, and on an empty range its loop reads past
  `end_it` (see Findings). The source's result is a vector of two
  iterators; here it is a pair of indices.

## Findings

| source | as written | input that shows it | evidently intended | confidence | as-written member | corrected member |
|---|---|---|---|---|---|---|
| gps_path_tools.h:536-538 | the delta inside the loop is computed from `start_it`, not `i`, so no later point can ever be closer | points at 0 and 10 microseconds, target 10: answers the first point | compare each point's own time with the target | not executed | PathSearch.ClosestTimeMissesLaterPoint | PathSearch.FindNearestInTime |
| gps_path_tools.h:609-624 | the loop of `smooth` starts at `start_it`, so the first window reads `start_it - 1`, outside the range | four values, range [1, 4): changing only value 0 changes the smoothed output | centres from `start_it + 1` to `end_it - 2`, two values fewer than the input | not executed | PathFilters.SmoothAsWrittenReadsBeforeRange | PathFilters.SmoothInteriorShape |
| gps_path_tools.h:626-639 | the loop of `first_forward_difference` starts at `start_it`, so the first window reads `start_it - 1`, outside the range | four values, range [1, 4): changing only value 0 changes the first difference | centres from `start_it + 1` to `end_it - 2`, two values fewer than the input | not executed | PathFilters.ForwardAsWrittenReadsBeforeRange | PathFilters.ForwardInteriorShape |
| gps_path_tools.h:574-603 | `find_stationary_points` has no size guard; on an empty range `i != std::prev(end_it)` holds, so the loop runs and reads past `end_it` | `start_it == end_it` | return (`end_it`, `end_it`), as the sibling functions return an empty result for small ranges | not executed | PathSearch.StationaryEmptyRangeReadsPastEnd | PathSearch.FindStationaryPointsIntended |
| gps_path_tools.h:666 | `end_time` is formatted from `end_it`, one past the range; for a whole path it reads past the end | points at 0, 1 and 2 microseconds, range of the first two: end time text is that of the third point | format the time of `end_it - 1`, as the duration already does | not executed | PathAnalytics.SummaryEndTimeReadsPastRange | PathAnalytics.GeneratePathSummaryIntended |
| gps_path_tools.h:147 | `y / 400` truncates toward zero, while the published algorithm floors it for negative years | February of year 0 comes out 28 days long | `era = (y >= 0 ? y : y - 399) / 400` | not executed | TimeCodec.EpochMissesLeapDayOfYearZero | TimeCodec.CivilMonthLength |
| gps_path_tools.h:293 | the "S" anchor is at 190 degrees instead of 180 | 160 degrees answers "SE" (25 degrees off) rather than "S" (20 degrees off) | the "S" anchor at 180 | not executed | GeoMath.CardinalSkewAt160 | GeoMath.CompassWithinHalfSector |
