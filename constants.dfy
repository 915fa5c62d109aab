/** The app's fixed settings and tables (src/utils/constants.ts). */
module Constants {
  import opened AppTypes

  /** `PRAYER_ORDER`: the five prayers in the order of the day. */
  const PrayerOrder: seq<PrayerName> := [Fajr, Dhuhr, Asr, Maghrib, Isha]

  /** The position of a prayer in the day's order. */
  function Rank(p: PrayerName): (k: nat)
    ensures k < |PrayerOrder| && PrayerOrder[k] == p
  {
    match p
    case Fajr => 0
    case Dhuhr => 1
    case Asr => 2
    case Maghrib => 3
    case Isha => 4
  }

  /** Rank is the inverse of indexing into the day's order. */
  lemma RankOfOrder(i: int)
    requires 0 <= i < |PrayerOrder|
    ensures Rank(PrayerOrder[i]) == i
  {
  }

  /** `KAABA_COORDINATES`, in degrees. */
  const KaabaLatitude: real := 21.4225
  const KaabaLongitude: real := 39.8262

  /** `COMPASS_SETTINGS`. */
  const CompassUpdateIntervalMs: nat := 100
  const CalibrationThreshold: real := 5.0
  const VibrationThreshold: real := 3.0

  /** The keys of `CALCULATION_METHODS` and `PRAYER_CALCULATION_PARAMS`. */
  datatype CalculationMethod = ISNA | MWL | Egypt | Makkah | Karachi

  /** The Fajr and Isha numbers of one method, in degrees below the horizon as
      the calculator uses them. */
  datatype MethodParams = MethodParams(fajr: real, isha: real)

  /** `PRAYER_CALCULATION_PARAMS`: Fajr angles from 15 to 19.5 degrees and,
      except for Makkah, Isha angles from 15 to 18 degrees and never above the
      method's Fajr angle; Makkah's Isha entry is 90 (minutes in the
      Umm al-Qura convention, though the calculator reads it as an angle). */
  function Params(m: CalculationMethod): (r: MethodParams)
    ensures 15.0 <= r.fajr <= 19.5
    ensures m != Makkah ==> 15.0 <= r.isha <= 18.0 && r.isha <= r.fajr
    ensures m == Makkah ==> r.isha == 90.0
  {
    match m
    case ISNA => MethodParams(15.0, 15.0)
    case MWL => MethodParams(18.0, 17.0)
    case Egypt => MethodParams(19.5, 17.5)
    case Makkah => MethodParams(18.5, 90.0)
    case Karachi => MethodParams(18.0, 18.0)
  }
}
