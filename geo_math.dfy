/** Locations, the spherical-Earth formulas the path functions call (left
    uninterpreted: they are floating-point trigonometry), and the
    nearest-cardinal-direction lookup. */
module GeoMath {
  import opened Numeric

  /** Decimal-degree latitude and longitude, elevation in metres. */
  datatype Location = Location(lat: real, lon: real, ele: real)

  /** `distance` (haversine, metres), `heading` (initial bearing, degrees)
      and `speed` (metres per second over the given seconds). Any of them
      may yield NaN; nothing else about them is assumed. */
  datatype Geo = Geo(
    distance: (Location, Location) -> Double,
    heading: (Location, Location) -> Double,
    speed: (Location, Location, real) -> Double)

  // ---------------------------------------------------------------------
  // cardinal_direction
  // ---------------------------------------------------------------------

  datatype Cardinal = Cardinal(angle: real, name: string)

  /** The anchor table of `cardinal_direction`; note the "S" anchor at 190. */
  const Cardinals: seq<Cardinal> := [
    Cardinal(0.0, "N"), Cardinal(45.0, "NE"), Cardinal(90.0, "E"), Cardinal(135.0, "SE"),
    Cardinal(190.0, "S"), Cardinal(225.0, "SW"), Cardinal(270.0, "W"), Cardinal(315.0, "NW"),
    Cardinal(360.0, "N")]

  /** The same table with the "S" anchor on the compass point, 180. */
  const CompassPoints: seq<Cardinal> := Cardinals[4 := Cardinal(180.0, "S")]

  const CardinalNames: set<string> := {"N", "NE", "E", "SE", "S", "SW", "W", "NW"}

  /** `fmod(bearing, 360.0)`, then one turn added to a negative remainder. */
  function NormalizeBearing(bearing: real): (b: real)
    ensures 0.0 <= b < 360.0
    ensures 0.0 <= bearing < 360.0 ==> b == bearing
    ensures ((bearing - b) / 360.0).Floor as real == (bearing - b) / 360.0
  {
    var f := FMod360(bearing);
    var turns := (bearing - f) / 360.0;
    assert turns == turns.Floor as real;
    if f < 0.0 then
      assert (bearing - (f + 360.0)) / 360.0 == (turns.Floor - 1) as real;
      f + 360.0
    else f
  }

  /** `int delta = fabs(angle - bearing)`: the distance truncated to whole degrees. */
  function Delta(angle: real, bearing: real): (d: int)
    ensures d >= 0 && d as real <= Abs(angle - bearing) < d as real + 1.0
  {
    TruncToInt(Abs(angle - bearing))
  }

  /** Entry `i` has the smallest truncated delta, and no earlier entry has it. */
  predicate IsFirstNearest(table: seq<Cardinal>, b: real, i: int) {
    && 0 <= i < |table|
    && (forall j | 0 <= j < |table| :: Delta(table[i].angle, b) <= Delta(table[j].angle, b))
    && (forall j | 0 <= j < i :: Delta(table[i].angle, b) < Delta(table[j].angle, b))
  }

  lemma FirstNearestIsUnique(table: seq<Cardinal>, b: real, i: int, k: int)
    requires IsFirstNearest(table, b, i) && IsFirstNearest(table, b, k)
    ensures i == k
  {
    var di, dk := Delta(table[i].angle, b), Delta(table[k].angle, b);
    assert di == dk;
    if i < k {
      assert false;
    } else if k < i {
      assert false;
    }
  }

  /** The scan of `cardinal_direction` over a nine-entry table: the strict
      `<` keeps the earliest of equally near anchors. */
  method NearestCardinal(table: seq<Cardinal>, bearing: real) returns (closestIndex: int)
    requires |table| == 9
    ensures IsFirstNearest(table, bearing, closestIndex)
  {
    closestIndex := 0;
    var closestDelta := Delta(table[0].angle, bearing);
    for i := 0 to 9
      invariant 0 <= closestIndex < 9
      invariant closestDelta == Delta(table[closestIndex].angle, bearing)
      invariant forall j | 0 <= j < i :: closestDelta <= Delta(table[j].angle, bearing)
      invariant forall j | 0 <= j < closestIndex :: closestDelta < Delta(table[j].angle, bearing)
    {
      var delta := Delta(table[i].angle, bearing);
      if delta < closestDelta {
        closestDelta := delta;
        closestIndex := i;
      }
    }
  }

  /** `cardinal_direction`: the name of the first anchor nearest to the
      normalised bearing; always one of the eight compass names. */
  method CardinalDirection(bearing: real) returns (name: string)
    ensures name in CardinalNames
    ensures exists k :: IsFirstNearest(Cardinals, NormalizeBearing(bearing), k) && name == Cardinals[k].name
  {
    var b := NormalizeBearing(bearing);
    var k := NearestCardinal(Cardinals, b);
    name := Cardinals[k].name;
  }

  /** The lookup with the "S" anchor at 180 degrees. */
  method CompassDirection(bearing: real) returns (name: string)
    ensures name in CardinalNames
    ensures exists k :: IsFirstNearest(CompassPoints, NormalizeBearing(bearing), k) && name == CompassPoints[k].name
  {
    var b := NormalizeBearing(bearing);
    var k := NearestCardinal(CompassPoints, b);
    name := CompassPoints[k].name;
  }

  /** The anchors of the corrected table are the multiples of 45 degrees. */
  lemma CompassAngles(j: int)
    requires 0 <= j < 9
    ensures CompassPoints[j].angle == 45.0 * j as real
  {
  }

  /** With anchors every 45 degrees, the chosen anchor is never more than
      22 whole degrees from the bearing: each bearing gets its own sector. */
  lemma CompassWithinHalfSector(b: real, k: int)
    requires 0.0 <= b < 360.0 && IsFirstNearest(CompassPoints, b, k)
    ensures Delta(CompassPoints[k].angle, b) <= 22
  {
    var j := ((b + 22.5) / 45.0).Floor;
    assert 0 <= j < 9;
    CompassAngles(j);
    assert Abs(CompassPoints[j].angle - b) <= 22.5;
  }

  /** At 160 degrees the table as written answers "SE", 25 degrees away,
      where the compass table answers "S", 20 degrees away. */
  lemma CardinalSkewAt160(k: int, c: int)
    requires IsFirstNearest(Cardinals, 160.0, k) && IsFirstNearest(CompassPoints, 160.0, c)
    ensures Cardinals[k].name == "SE" && Delta(Cardinals[k].angle, 160.0) == 25
    ensures CompassPoints[c].name == "S"
  {
    assert Delta(Cardinals[3].angle, 160.0) == 25;
    assert Delta(Cardinals[4].angle, 160.0) == 30;
    assert Delta(CompassPoints[4].angle, 160.0) == 20;
  }

  /** Once entry `i` is shown first-nearest, any first-nearest `k` names it. */
  lemma NearestNameAt(b: real, k: int, i: int)
    requires IsFirstNearest(Cardinals, b, i)
    ensures IsFirstNearest(Cardinals, b, k) ==> Cardinals[k].name == Cardinals[i].name
  {
    if IsFirstNearest(Cardinals, b, k) {
      FirstNearestIsUnique(Cardinals, b, i, k);
    }
  }

  /** The first nearest anchor of the table as written, at each bearing
      the tests of `cardinal_direction` use. */
  lemma NearestAt1()
    ensures IsFirstNearest(Cardinals, 1.0, 0)
  {
  }

  lemma NearestAt45()
    ensures IsFirstNearest(Cardinals, 45.0, 1)
  {
  }

  lemma NearestAt90()
    ensures IsFirstNearest(Cardinals, 90.0, 2)
  {
  }

  lemma NearestAt134()
    ensures IsFirstNearest(Cardinals, 134.0, 3)
  {
  }

  lemma NearestAt269()
    ensures IsFirstNearest(Cardinals, 269.0, 6)
  {
  }

  lemma NearestAt316()
    ensures IsFirstNearest(Cardinals, 316.0, 7)
  {
  }

  lemma NearestAt350()
    ensures IsFirstNearest(Cardinals, 350.0, 8)
  {
  }

  lemma NearestAt180()
    ensures IsFirstNearest(Cardinals, 180.0, 4)
  {
  }

  lemma NearestAt215()
    ensures IsFirstNearest(Cardinals, 215.0, 5)
  {
  }

  lemma NearestAt324()
    ensures IsFirstNearest(Cardinals, 324.0, 7)
  {
  }

  lemma NearestAt359()
    ensures IsFirstNearest(Cardinals, 359.0, 8)
  {
  }

  lemma NearestAt0()
    ensures IsFirstNearest(Cardinals, 0.0, 0)
  {
  }

  lemma NearestAt340()
    ensures IsFirstNearest(Cardinals, 340.0, 8)
  {
  }

  /** The expectations of the tests of `cardinal_direction` for 1 and 45 degrees. */
  lemma CardinalExamplesNorthEast(k: int)
    ensures IsFirstNearest(Cardinals, NormalizeBearing(1.0), k) ==> Cardinals[k].name == "N"
    ensures IsFirstNearest(Cardinals, NormalizeBearing(45.0), k) ==> Cardinals[k].name == "NE"
  {
    NearestAt1();
    NearestAt45();
    NearestNameAt(1.0, k, 0);
    NearestNameAt(45.0, k, 1);
  }

  /** The expectation for 90 degrees. */
  lemma CardinalExampleEast(k: int)
    ensures IsFirstNearest(Cardinals, NormalizeBearing(90.0), k) ==> Cardinals[k].name == "E"
  {
    NearestAt90();
    NearestNameAt(90.0, k, 2);
  }

  /** The expectation for 134 degrees. */
  lemma CardinalExampleSouthEast(k: int)
    ensures IsFirstNearest(Cardinals, NormalizeBearing(134.0), k) ==> Cardinals[k].name == "SE"
  {
    NearestAt134();
    NearestNameAt(134.0, k, 3);
  }

  /** The expectation for 269 degrees. */
  lemma CardinalExampleWest(k: int)
    ensures IsFirstNearest(Cardinals, NormalizeBearing(269.0), k) ==> Cardinals[k].name == "W"
  {
    NearestAt269();
    NearestNameAt(269.0, k, 6);
  }

  /** The expectations for 180 and 215 degrees. */
  lemma CardinalExamplesSouth(k: int)
    ensures IsFirstNearest(Cardinals, NormalizeBearing(180.0), k) ==> Cardinals[k].name == "S"
    ensures IsFirstNearest(Cardinals, NormalizeBearing(215.0), k) ==> Cardinals[k].name == "SW"
  {
    NearestAt180();
    NearestAt215();
    NearestNameAt(180.0, k, 4);
    NearestNameAt(215.0, k, 5);
  }

  /** The expectations for 316 and 324 degrees. */
  lemma CardinalExamplesNorthWest(k: int)
    ensures IsFirstNearest(Cardinals, NormalizeBearing(316.0), k) ==> Cardinals[k].name == "NW"
    ensures IsFirstNearest(Cardinals, NormalizeBearing(324.0), k) ==> Cardinals[k].name == "NW"
  {
    NearestAt316();
    NearestAt324();
    NearestNameAt(316.0, k, 7);
    NearestNameAt(324.0, k, 7);
  }

  /** The expectations for 350 and 359 degrees. */
  lemma CardinalExamplesNorth(k: int)
    ensures IsFirstNearest(Cardinals, NormalizeBearing(350.0), k) ==> Cardinals[k].name == "N"
    ensures IsFirstNearest(Cardinals, NormalizeBearing(359.0), k) ==> Cardinals[k].name == "N"
  {
    NearestAt350();
    NearestAt359();
    NearestNameAt(350.0, k, 8);
    NearestNameAt(359.0, k, 8);
  }

  /** The expectations for 360 and -20 degrees, which `fmod` wraps to 0 and 340. */
  lemma CardinalWrapExamples(k: int)
    ensures IsFirstNearest(Cardinals, NormalizeBearing(360.0), k) ==> Cardinals[k].name == "N"
    ensures IsFirstNearest(Cardinals, NormalizeBearing(-20.0), k) ==> Cardinals[k].name == "N"
  {
    assert NormalizeBearing(360.0) == 0.0 by { assert TruncToInt(360.0 / 360.0) == 1; }
    assert NormalizeBearing(-20.0) == 340.0 by { assert TruncToInt(-20.0 / 360.0) == 0; }
    NearestAt0();
    NearestAt340();
    NearestNameAt(0.0, k, 0);
    NearestNameAt(340.0, k, 8);
  }
}
