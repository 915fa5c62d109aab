/** The compass engine (src/services/compassService.ts): turning
    magnetometer samples into a heading, the heading into an offset towards
    the Qibla, and a window of the last ten headings into a calibration flag.

    The magnetometer itself is not modelled: a sample is a call of
    `UpdateHeading`, the subscription is a flag, and the heading callback is
    the log of the (heading, offset) pairs it was called with. */
module CompassService {
  import opened Wrappers
  import opened JsMath
  import opened JsText
  import opened Constants
  import opened PrayerCalculations

  // ---------------------------------------------------------------------------
  // Heading and offset

  /** `calculateHeading`: a sample whose x and y are both below 0.01 in
      magnitude is rejected; any other gives a heading in [0, 360). */
  function CalculateHeading(m: SolarModel, x: real, y: real): (h: Option<real>)
    requires WellBehaved(m)
    ensures h.None? <==> Abs(x) < 0.01 && Abs(y) < 0.01
    ensures h.Some? ==> 0.0 <= h.value < 360.0
  {
    if Abs(x) < 0.01 && Abs(y) < 0.01 then None
    else Some(NormalizeBearing(m.atan2(y, x) * (180.0 / Pi)))
  }

  /** `calculateQiblaDirection` of the compass: the Qibla bearing relative to
      the heading, shifted by at most one turn; for a bearing and a heading in
      [0, 360) it lies in [-180, 180]. */
  function QiblaOffset(bearing: real, heading: real): (d: real)
    ensures d == bearing - heading || d == bearing - heading - 360.0 || d == bearing - heading + 360.0
    ensures 0.0 <= bearing < 360.0 && 0.0 <= heading < 360.0 ==> -180.0 <= d <= 180.0
  {
    var d := bearing - heading;
    if d > 180.0 then d - 360.0
    else if d < -180.0 then d + 360.0
    else d
  }

  // ---------------------------------------------------------------------------
  // Calibration window

  /** The most recent n entries of s, in arrival order. */
  function Latest(s: seq<real>, n: nat): (r: seq<real>)
    ensures |r| <= n && |r| <= |s|
  {
    if |s| <= n then s else s[|s| - n..]
  }

  /** `checkCalibration`'s push followed by at most one shift once the window
      holds more than ten readings. */
  function Window(w: seq<real>, heading: real): (r: seq<real>)
    ensures |w| <= 10 ==> |r| <= 10
    ensures |r| > 0 && r[|r| - 1] == heading
  {
    var pushed := w + [heading];
    if |pushed| > 10 then pushed[1..] else pushed
  }

  /** Pushing onto the window of the latest ten readings gives the window of
      the latest ten readings after the new one: the window is a FIFO. */
  lemma WindowKeepsLatest(s: seq<real>, heading: real)
    ensures Window(Latest(s, 10), heading) == Latest(s + [heading], 10)
  {
    var t := s + [heading];
    if |s| >= 10 {
      assert Latest(s, 10) + [heading] == s[|s| - 10..] + [heading];
      assert (s[|s| - 10..] + [heading])[1..] == t[|t| - 10..];
    }
  }

  /** The sum of a sequence, folded from the left as `reduce` does. */
  function Sum(s: seq<real>): real
  {
    if s == [] then 0.0 else Sum(s[..|s| - 1]) + s[|s| - 1]
  }

  function Mean(s: seq<real>): real
    requires |s| > 0
  {
    Sum(s) / |s| as real
  }

  /** The sum of the squared deviations from `mean`; never negative. */
  function SquaredDeviations(s: seq<real>, mean: real): (r: real)
    ensures r >= 0.0
  {
    if s == [] then 0.0
    else
      var d := s[|s| - 1] - mean;
      SquareNonNegative(d);
      SquaredDeviations(s[..|s| - 1], mean) + d * d
  }

  lemma SquareNonNegative(d: real)
    ensures d * d >= 0.0
  {
    if d < 0.0 {
      assert d * d == (-d) * (-d);
    }
  }

  /** The population variance of `calculateVariance`, which returns its square
      root. It is never negative. */
  function Variance(s: seq<real>): (v: real)
    requires |s| > 0
    ensures v >= 0.0
  {
    SquaredDeviations(s, Mean(s)) / |s| as real
  }

  /** `sqrt(variance) < CalibrationThreshold`, stated without the square root:
      for a non-negative variance it is `variance < threshold * threshold`. */
  predicate IsConsistent(s: seq<real>)
  {
    |s| > 0 && Variance(s) < CalibrationThreshold * CalibrationThreshold
  }

  lemma {:induction false} SumOfConstant(s: seq<real>, c: real)
    requires forall i :: 0 <= i < |s| ==> s[i] == c
    ensures Sum(s) == |s| as real * c
  {
    if s != [] {
      SumOfConstant(s[..|s| - 1], c);
    }
  }

  lemma {:induction false} DeviationsOfConstant(s: seq<real>, c: real)
    requires forall i :: 0 <= i < |s| ==> s[i] == c
    ensures SquaredDeviations(s, c) == 0.0
  {
    if s != [] {
      DeviationsOfConstant(s[..|s| - 1], c);
    }
  }

  /** A window of identical headings has variance 0, so it counts as
      calibrated. */
  lemma ConstantReadingsAreConsistent(s: seq<real>, c: real)
    requires |s| > 0 && forall i :: 0 <= i < |s| ==> s[i] == c
    ensures Variance(s) == 0.0 && IsConsistent(s)
  {
    SumOfConstant(s, c);
    assert Mean(s) == c;
    DeviationsOfConstant(s, c);
  }

  /** A heading that jitters across north (359 and 1 degrees) is steady, yet
      its plain variance is far above the threshold: the readings are
      averaged as numbers, not as directions. */
  lemma JitterAcrossNorthIsNotConsistent()
    ensures !IsConsistent([359.0, 1.0, 359.0, 1.0, 359.0])
  {
    var s := [359.0, 1.0, 359.0, 1.0, 359.0];
    assert s[..4] == [359.0, 1.0, 359.0, 1.0];
    assert s[..4][..3] == [359.0, 1.0, 359.0];
    assert s[..4][..3][..2] == [359.0, 1.0];
    assert s[..4][..3][..2][..1] == [359.0];
    assert Sum([359.0]) == 359.0;
    assert Sum([359.0, 1.0]) == 360.0;
    assert Sum([359.0, 1.0, 359.0]) == 719.0;
    assert Sum([359.0, 1.0, 359.0, 1.0]) == 720.0;
    assert Sum(s) == 1079.0;
    var mean := 1079.0 / 5.0;
    assert SquaredDeviations(s, mean) == SquaredDeviations(s[..4], mean) + (359.0 - mean) * (359.0 - mean);
  }

  // ---------------------------------------------------------------------------
  // Cardinal direction

  /** The labels of `getCardinalDirection`, one per 45-degree sector. */
  const Directions: seq<string> := ["N", "NE", "E", "SE", "S", "SW", "W", "NW"]

  /** `getCardinalDirection`: sector `Math.round(heading / 45) % 8` with
      JavaScript's remainder; an index outside the table (a negative remainder)
      falls back to "N". Every non-negative heading gets the sector whose
      centre is nearest, so headings from 337.5 up wrap back to "N"; every
      negative heading reads "N". */
  function CardinalDirection(heading: real): (d: string)
    ensures 0.0 <= heading ==>
              var r := Round(heading / 45.0);
              && d == Directions[r % 8]
              && r as real * 45.0 - 22.5 <= heading < r as real * 45.0 + 22.5
    ensures 337.5 <= heading < 360.0 ==> d == "N"
    ensures heading < 0.0 ==> d == "N"
  {
    var index := IntRem(Round(heading / 45.0), 8);
    if 0 <= index < |Directions| then Directions[index] else "N"
  }

  /** `formatHeading`: the rounded heading, the degree sign as the source
      spells it (the two characters U+00C2 U+00B0), a space, and the cardinal
      direction. */
  function FormatHeading(heading: real): (s: string)
    ensures 0.0 <= heading ==>
              && Round(heading) >= 0
              && var digits := NatToString(Round(heading));
                 |digits| < |s| && s[..|digits|] == digits && DigitsValue(digits) == Round(heading)
    ensures |s| >= 4 && s[|s| - |CardinalDirection(heading)|..] == CardinalDirection(heading)
  {
    NatToStringRoundTrip(if Round(heading) >= 0 then Round(heading) else 0);
    IntToString(Round(heading)) + "\U{C2}\U{B0} " + CardinalDirection(heading)
  }

  // ---------------------------------------------------------------------------
  // The service

  datatype CalibrationStatus = CalibrationStatus(isCalibrated: bool, progress: real)

  class Compass {
    /** A magnetometer subscription is live (`magnetometerSubscription`). */
    var subscribed: bool
    /** A heading callback is registered (`onHeadingChange`). */
    var hasListener: bool
    var currentHeading: real
    var qiblaBearing: real
    var isCalibrated: bool
    var calibrationReadings: seq<real>
    /** The (heading, offset) pairs the callback has been called with. */
    var notifications: seq<(real, real)>
    /** Every heading accepted since the last calibration reset. */
    ghost var accepted: seq<real>

    /** The window is the latest ten accepted headings, and the flag is set
        exactly when the window holds at least five consistent readings. */
    ghost predicate Valid()
      reads this
    {
      && calibrationReadings == Latest(accepted, 10)
      && isCalibrated == (|calibrationReadings| >= 5 && IsConsistent(calibrationReadings))
      && 0.0 <= currentHeading < 360.0
      && 0.0 <= qiblaBearing < 360.0
    }

    constructor()
      ensures Valid()
      ensures !subscribed && !hasListener && currentHeading == 0.0 && qiblaBearing == 0.0
      ensures !isCalibrated && calibrationReadings == [] && notifications == []
    {
      subscribed := false;
      hasListener := false;
      currentHeading := 0.0;
      qiblaBearing := 0.0;
      isCalibrated := false;
      calibrationReadings := [];
      notifications := [];
      accepted := [];
    }

    /** `initialize`: the Qibla bearing of a calculator at the location with
        UTC offset 0 and the default method, ISNA. */
    method Initialize(latitude: real, longitude: real, m: SolarModel)
      requires Valid() && WellBehaved(m)
      modifies this
      ensures Valid()
      ensures qiblaBearing == CalculateQiblaDirection(PrayerCalculator(latitude, longitude, 0.0, ISNA), m).bearing
      ensures subscribed == old(subscribed) && hasListener == old(hasListener)
      ensures currentHeading == old(currentHeading) && isCalibrated == old(isCalibrated)
      ensures calibrationReadings == old(calibrationReadings) && notifications == old(notifications)
      ensures accepted == old(accepted)
    {
      qiblaBearing := CalculateQiblaDirection(PrayerCalculator(latitude, longitude, 0.0, ISNA), m).bearing;
    }

    /** `startCompassUpdates`: registers the callback and replaces any live
        subscription by a new one, so exactly one is live afterwards. */
    method StartCompassUpdates()
      modifies this
      ensures subscribed && hasListener
      ensures currentHeading == old(currentHeading) && qiblaBearing == old(qiblaBearing)
      ensures isCalibrated == old(isCalibrated) && calibrationReadings == old(calibrationReadings)
      ensures notifications == old(notifications) && accepted == old(accepted)
    {
      hasListener := true;
      subscribed := true;
    }

    /** `stopCompassUpdates`: no subscription and no callback afterwards. */
    method StopCompassUpdates()
      modifies this
      ensures !subscribed && !hasListener
      ensures currentHeading == old(currentHeading) && qiblaBearing == old(qiblaBearing)
      ensures isCalibrated == old(isCalibrated) && calibrationReadings == old(calibrationReadings)
      ensures notifications == old(notifications) && accepted == old(accepted)
    {
      subscribed := false;
      hasListener := false;
    }

    /** `checkCalibration`: push the heading, keep the latest ten, and from
        five readings on recompute the flag; below five it is left as it was. */
    method CheckCalibration(heading: real)
      requires Valid()
      modifies this
      ensures Valid()
      ensures accepted == old(accepted) + [heading]
      ensures calibrationReadings == Window(old(calibrationReadings), heading)
      ensures isCalibrated == if |calibrationReadings| >= 5 then IsConsistent(calibrationReadings) else old(isCalibrated)
      ensures subscribed == old(subscribed) && hasListener == old(hasListener)
      ensures currentHeading == old(currentHeading) && qiblaBearing == old(qiblaBearing)
      ensures notifications == old(notifications)
    {
      WindowKeepsLatest(accepted, heading);
      accepted := accepted + [heading];
      calibrationReadings := calibrationReadings + [heading];
      if |calibrationReadings| > 10 {
        calibrationReadings := calibrationReadings[1..];
      }
      if |calibrationReadings| >= 5 {
        isCalibrated := IsConsistent(calibrationReadings);
      }
    }

    /** `updateHeading`: a rejected sample changes nothing and calls nobody;
        an accepted one becomes the current heading, enters the calibration
        window and, when a callback is registered, is reported with its
        offset towards the Qibla. */
    method UpdateHeading(m: SolarModel, x: real, y: real)
      requires Valid() && WellBehaved(m)
      modifies this
      ensures Valid()
      ensures CalculateHeading(m, x, y).None? ==>
                && currentHeading == old(currentHeading) && isCalibrated == old(isCalibrated)
                && calibrationReadings == old(calibrationReadings) && notifications == old(notifications)
                && accepted == old(accepted)
      ensures CalculateHeading(m, x, y).Some? ==>
                var h := CalculateHeading(m, x, y).value;
                && currentHeading == h
                && accepted == old(accepted) + [h]
                && calibrationReadings == Window(old(calibrationReadings), h)
                && notifications == old(notifications) + (if hasListener then [(h, QiblaOffset(qiblaBearing, h))] else [])
      ensures subscribed == old(subscribed) && hasListener == old(hasListener) && qiblaBearing == old(qiblaBearing)
    {
      var heading := CalculateHeading(m, x, y);
      if heading.Some? {
        currentHeading := heading.value;
        var offset := QiblaOffset(qiblaBearing, heading.value);
        CheckCalibration(heading.value);
        if hasListener {
          notifications := notifications + [(heading.value, offset)];
        }
      }
    }

    /** `getCalibrationStatus`: progress is the window's fill, `min(len / 10, 1)`. */
    function GetCalibrationStatus(): (r: CalibrationStatus)
      reads this
      ensures r.isCalibrated == isCalibrated
      ensures 0.0 <= r.progress <= 1.0
      ensures r.progress == 1.0 <==> |calibrationReadings| >= 10
      ensures r.progress == 0.0 <==> calibrationReadings == []
    {
      CalibrationStatus(isCalibrated, MinReal(|calibrationReadings| as real / 10.0, 1.0))
    }

    /** `resetCalibration`: an empty window, progress 0, not calibrated. */
    method ResetCalibration()
      requires Valid()
      modifies this
      ensures Valid()
      ensures calibrationReadings == [] && !isCalibrated && accepted == []
      ensures GetCalibrationStatus() == CalibrationStatus(false, 0.0)
      ensures subscribed == old(subscribed) && hasListener == old(hasListener)
      ensures currentHeading == old(currentHeading) && qiblaBearing == old(qiblaBearing)
      ensures notifications == old(notifications)
    {
      calibrationReadings := [];
      isCalibrated := false;
      accepted := [];
    }

    /** `isPointingTowardsQibla`: the offset is within the vibration
        threshold of 3 degrees either way. */
    predicate IsPointingTowardsQibla(heading: real)
      reads this
    {
      Abs(QiblaOffset(qiblaBearing, heading)) <= VibrationThreshold
    }

    /** `getQiblaAccuracy`: the size of the offset, at most 180 degrees for a
        heading in [0, 360); pointing towards the Qibla means an accuracy of
        at most 3. */
    function GetQiblaAccuracy(heading: real): (a: real)
      reads this
      ensures a >= 0.0
      ensures Valid() && 0.0 <= heading < 360.0 ==> a <= 180.0
      ensures IsPointingTowardsQibla(heading) <==> a <= VibrationThreshold
    {
      Abs(QiblaOffset(qiblaBearing, heading))
    }

    /** A heading counts as pointing towards the Qibla exactly when it is
        within 3 degrees of the bearing either way, across north included
        (bearing 1 and heading 359 are 2 degrees apart). */
    lemma AlignmentThreshold(delta: real)
      requires Valid()
      requires 0.0 <= qiblaBearing + delta < 360.0
      ensures IsPointingTowardsQibla(qiblaBearing + delta)
              <==> -3.0 <= delta <= 3.0 || delta >= 357.0 || delta <= -357.0
    {
    }
  }
}
