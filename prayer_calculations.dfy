/** Prayer times, Qibla bearing and the next-prayer scheduler
    (src/utils/prayerCalculations.ts).

    The solar-position series and the trigonometric functions are not
    modelled numerically: they are the function-valued fields of a
    `SolarModel`, and `WellBehaved` states the only facts the proofs use
    (the ranges of acos and atan2). What is proved is the structure around
    them: the Julian-date arithmetic, the guard on every acos, the fallbacks,
    and the order of the times each formula produces. */
module PrayerCalculations {
  import opened Wrappers
  import opened JsMath
  import opened JsText
  import opened AppTypes
  import opened Constants

  /** `Math.PI`. */
  const Pi: real := 3.141592653589793

  /** The functions the calculator takes from `Math` and from the solar series. */
  datatype SolarModel = SolarModel(
    sin: real -> real,
    cos: real -> real,
    acos: real -> real,
    atan2: (real, real) -> real,
    sqrt: real -> real,
    /** `getSolarNoon`: (Julian date, longitude) to the Julian date of solar transit. */
    solarNoon: (real, real) -> real,
    /** `getSolarDeclination`: Julian date to the declination value it returns. */
    declination: real -> real,
    /** The Asr elevation in degrees for (phi, delta), shadow factor 1. */
    asrElevation: (real, real) -> real)

  /** The ranges `Math.acos`, `Math.atan2` and `Math.sqrt` guarantee. */
  ghost predicate WellBehaved(m: SolarModel)
  {
    && (forall c :: -1.0 <= c <= 1.0 ==> 0.0 <= m.acos(c) <= Pi)
    && (forall y, x :: -Pi <= m.atan2(y, x) <= Pi)
    && (forall y, x :: y >= 0.0 && x >= 0.0 ==> 0.0 <= m.atan2(y, x) <= Pi / 2.0)
    && (forall x :: x >= 0.0 ==> m.sqrt(x) >= 0.0)
  }

  /** A calculator: its constructor stores the location, the UTC offset and the method. */
  datatype PrayerCalculator = PrayerCalculator(latitude: real, longitude: real, timezone: real, calcMethod: CalculationMethod)

  function ToRadians(degrees: real): real { degrees * (Pi / 180.0) }

  function ToDegrees(radians: real): real { radians * (180.0 / Pi) }

  // ---------------------------------------------------------------------------
  // Julian date

  /** A local calendar date as `getFullYear`, `getMonth() + 1` and `getDate` give it. */
  datatype CivilDate = CivilDate(year: int, month: int, day: int)

  predicate IsHalfInteger(x: real)
  {
    (x + 0.5).Floor as real == x + 0.5
  }

  /** `Math.floor(365.25 * n)`, the year term of the Julian date. */
  function YearTerm(n: int): int { (365.25 * n as real).Floor }

  /** `Math.floor(30.6001 * k)`, the month term of the Julian date. */
  function MonthTerm(k: int): int { (30.6001 * k as real).Floor }

  /** The Gregorian correction `2 - a + floor(a / 4)` with `a = floor(year / 100)`;
      Dafny's `/` floors for a positive divisor, as `Math.floor` does. */
  function Correction(year: int): int
  {
    var a := year / 100;
    2 - a + a / 4
  }

  /** `getJulianDate`: January and February count as months 13 and 14 of the
      previous year. The result is always a half-integer (a date at midnight). */
  function JulianDate(date: CivilDate): (jd: real)
    ensures IsHalfInteger(jd)
  {
    var year := if date.month <= 2 then date.year - 1 else date.year;
    var month := if date.month <= 2 then date.month + 12 else date.month;
    var whole := YearTerm(year + 4716) + MonthTerm(month + 1) + date.day + Correction(year);
    assert whole as real - 1524.5 + 0.5 == (whole - 1524) as real;
    whole as real - 1524.5
  }

  /** Two consecutive days of one month are exactly one Julian day apart. */
  lemma JulianDateNextDay(y: int, m: int, d: int)
    ensures JulianDate(CivilDate(y, m, d + 1)) == JulianDate(CivilDate(y, m, d)) + 1.0
  {
  }

  /** The Gregorian leap-year rule. */
  predicate IsLeapYear(y: int)
  {
    y % 4 == 0 && (y % 100 != 0 || y % 400 == 0)
  }

  /** The length of a Gregorian month, as an independent reference. */
  function DaysInMonth(y: int, m: int): int
    requires 1 <= m <= 12
  {
    if m == 2 then (if IsLeapYear(y) then 29 else 28)
    else if m == 4 || m == 6 || m == 9 || m == 11 then 30
    else 31
  }

  function NextMonthFirst(y: int, m: int): CivilDate
    requires 1 <= m <= 12
  {
    if m == 12 then CivilDate(y + 1, 1, 1) else CivilDate(y, m + 1, 1)
  }

  /** The year term is the integer quotient `1461 * n / 4`. */
  lemma YearTermFloor(n: int)
    ensures YearTerm(n) == (1461 * n) / 4
  {
    var q := (1461 * n) / 4;
    assert 1461 * n == 4 * q + (1461 * n) % 4;
    assert q as real <= 365.25 * n as real < q as real + 1.0;
  }

  /** The month term is the integer quotient `306001 * k / 10000`. */
  lemma MonthTermFloor(k: int)
    ensures MonthTerm(k) == (306001 * k) / 10000
  {
    var q := (306001 * k) / 10000;
    assert 306001 * k == 10000 * q + (306001 * k) % 10000;
    assert q as real <= 30.6001 * k as real < q as real + 1.0;
  }

  /** The year term grows by 366 into a year divisible by 4 and by 365 otherwise. */
  lemma YearTermStep(y: int)
    ensures YearTerm(y + 4716) - YearTerm(y + 4715) == if y % 4 == 0 then 366 else 365
  {
    YearTermFloor(y + 4716);
    YearTermFloor(y + 4715);
    var n := y + 4716;
    assert 1461 * (n - 1) == 1461 * n - 1461;
    assert (1461 * n) % 4 == n % 4 == y % 4;
  }

  /** The correction drops by one between years y - 1 and y exactly when y is
      a century that is not a multiple of 400. */
  lemma CorrectionStep(y: int)
    ensures Correction(y) - Correction(y - 1) == if y % 100 == 0 && y % 400 != 0 then -1 else 0
  {
    var a, a' := y / 100, (y - 1) / 100;
    if y % 100 == 0 {
      assert a == a' + 1;
      assert (a % 4 == 0) == (y % 400 == 0);
      assert a / 4 - a' / 4 == if a % 4 == 0 then 1 else 0;
    } else {
      assert a == a';
    }
  }

  /** The month term for the months the Julian date uses (4 to 15). */
  lemma MonthTermTable(k: int)
    requires 4 <= k <= 15
    ensures MonthTerm(k) == [122, 153, 183, 214, 244, 275, 306, 336, 367, 397, 428, 459][k - 4]
  {
    MonthTermFloor(k);
    if k == 4 {
    } else if k == 5 {
    } else if k == 6 {
    } else if k == 7 {
    } else if k == 8 {
    } else if k == 9 {
    } else if k == 10 {
    } else if k == 11 {
    } else if k == 12 {
    } else if k == 13 {
    } else if k == 14 {
    } else if k == 15 {
    }
  }

  /** The day numbers of 1 March and 1 February of year y differ by the
      length of February. */
  lemma FebruaryDayNumbers(y: int)
    ensures (YearTerm(y + 4716) + MonthTerm(4) + Correction(y))
            - (YearTerm(y + 4715) + MonthTerm(15) + Correction(y - 1)) == DaysInMonth(y, 2)
  {
    MonthTermTable(15);
    MonthTermTable(4);
    YearTermStep(y);
    CorrectionStep(y);
    if y % 100 == 0 {
      assert y == 100 * (y / 100);
      assert y % 4 == 0;
    }
  }

  /** February: 337 days back in the month term against a year term of 365
      or 366 and the century correction. */
  lemma FebruaryLength(y: int)
    ensures JulianDate(CivilDate(y, 3, 1)) - JulianDate(CivilDate(y, 2, 1)) == DaysInMonth(y, 2) as real
  {
    FebruaryDayNumbers(y);
    var march := YearTerm(y + 4716) + MonthTerm(4) + 1 + Correction(y);
    var february := YearTerm(y + 4715) + MonthTerm(15) + 1 + Correction(y - 1);
    assert JulianDate(CivilDate(y, 3, 1)) == march as real - 1524.5;
    assert JulianDate(CivilDate(y, 2, 1)) == february as real - 1524.5;
  }

  /** January and December: months 13 to 14 and 14 to 15 of the shifted year. */
  lemma JanuaryAndDecemberLength(y: int)
    ensures JulianDate(CivilDate(y, 2, 1)) - JulianDate(CivilDate(y, 1, 1)) == DaysInMonth(y, 1) as real
    ensures JulianDate(CivilDate(y + 1, 1, 1)) - JulianDate(CivilDate(y, 12, 1)) == DaysInMonth(y, 12) as real
  {
    MonthTermTable(13);
    MonthTermTable(14);
    MonthTermTable(15);
  }

  /** March to November: the month term alone makes the difference. */
  lemma SpringToAutumnLength(y: int, m: int)
    requires 3 <= m <= 11
    ensures JulianDate(CivilDate(y, m + 1, 1)) - JulianDate(CivilDate(y, m, 1)) == DaysInMonth(y, m) as real
  {
    MonthTermTable(m + 1);
    MonthTermTable(m + 2);
    assert [122, 153, 183, 214, 244, 275, 306, 336, 367, 397, 428, 459][m - 2]
           - [122, 153, 183, 214, 244, 275, 306, 336, 367, 397, 428, 459][m - 3]
           == DaysInMonth(y, m);
  }

  /** The Julian dates of the first days of two consecutive months differ by
      the Gregorian length of the first month: the month term and the
      Jan/Feb shift reproduce the calendar, including the leap-year rule. */
  lemma JulianDateMonthLength(y: int, m: int)
    requires 1 <= m <= 12
    ensures JulianDate(NextMonthFirst(y, m)) - JulianDate(CivilDate(y, m, 1)) == DaysInMonth(y, m) as real
  {
    if m == 2 {
      FebruaryLength(y);
    } else if m == 1 || m == 12 {
      JanuaryAndDecemberLength(y);
    } else {
      SpringToAutumnLength(y, m);
    }
  }

  // ---------------------------------------------------------------------------
  // Hour angles

  /** `(sin(h0) - sin(phi) sin(delta)) / (cos(phi) cos(delta))` for a target
      elevation in degrees. A zero denominator (JavaScript's +-Infinity) is None. */
  function CosHourAngle(pc: PrayerCalculator, m: SolarModel, elevationDeg: real, delta: real): Option<real>
  {
    var phi := ToRadians(pc.latitude);
    var denominator := m.cos(phi) * m.cos(delta);
    if denominator == 0.0 then None
    else Some((m.sin(ToRadians(elevationDeg)) - m.sin(phi) * m.sin(delta)) / denominator)
  }

  /** The guard shared by every hour-angle solve: acos is taken only when
      cosH lies in [-1, 1]; otherwise there is no solution and the caller
      falls back. The hour angle is in degrees, within [0, 180]. */
  function HourAngle(m: SolarModel, cosH: Option<real>): (h: Option<real>)
    ensures h.Some? <==> cosH.Some? && -1.0 <= cosH.value <= 1.0
    ensures WellBehaved(m) && h.Some? ==> 0.0 <= h.value <= 180.0
  {
    if cosH.None? || cosH.value > 1.0 || cosH.value < -1.0 then None
    else Some(ToDegrees(m.acos(cosH.value)))
  }

  function SolarNoon(pc: PrayerCalculator, m: SolarModel, jd: real): real
  {
    m.solarNoon(jd, pc.longitude)
  }

  /** `getSunrise`: the solar noon of the day when there is no sunrise (polar
      day or night), and otherwise no later than it. */
  function Sunrise(pc: PrayerCalculator, m: SolarModel, jd: real): (t: real)
    ensures HourAngle(m, CosHourAngle(pc, m, -0.83, m.declination(jd))).None? ==> t == SolarNoon(pc, m, jd)
    ensures WellBehaved(m) ==> t <= SolarNoon(pc, m, jd)
  {
    var noon := SolarNoon(pc, m, jd);
    match HourAngle(m, CosHourAngle(pc, m, -0.83, m.declination(jd)))
    case None => noon
    case Some(h) => noon - h / 360.0
  }

  /** `getSunset`: the solar noon of the day when there is no sunset, and
      otherwise no earlier than it. */
  function Sunset(pc: PrayerCalculator, m: SolarModel, jd: real): (t: real)
    ensures HourAngle(m, CosHourAngle(pc, m, -0.83, m.declination(jd))).None? ==> t == SolarNoon(pc, m, jd)
    ensures WellBehaved(m) ==> t >= SolarNoon(pc, m, jd)
  {
    var noon := SolarNoon(pc, m, jd);
    match HourAngle(m, CosHourAngle(pc, m, -0.83, m.declination(jd)))
    case None => noon
    case Some(h) => noon + h / 360.0
  }

  /** `getFajrTime`: the declination and the solar noon are those of `today`
      (the source calls `new Date()` here), not of the requested date. With no
      solution the given sunrise is returned; otherwise the time is no later
      than today's solar noon. */
  function FajrTime(pc: PrayerCalculator, m: SolarModel, sunrise: real, angle: real, today: CivilDate): (t: real)
    ensures HourAngle(m, CosHourAngle(pc, m, -angle, m.declination(JulianDate(today)))).None? ==> t == sunrise
    ensures WellBehaved(m) ==> t == sunrise || t <= SolarNoon(pc, m, JulianDate(today))
  {
    var jdToday := JulianDate(today);
    match HourAngle(m, CosHourAngle(pc, m, -angle, m.declination(jdToday)))
    case None => sunrise
    case Some(h) => SolarNoon(pc, m, jdToday) - h / 360.0
  }

  /** `getIshaTime` as written: `angle` is always a depression angle, and the
      declination and solar noon are today's. With no solution the given
      sunset is returned; otherwise the time is no earlier than today's noon. */
  function IshaTimeAsWritten(pc: PrayerCalculator, m: SolarModel, sunset: real, angle: real, today: CivilDate): (t: real)
    ensures HourAngle(m, CosHourAngle(pc, m, -angle, m.declination(JulianDate(today)))).None? ==> t == sunset
    ensures WellBehaved(m) ==> t == sunset || t >= SolarNoon(pc, m, JulianDate(today))
  {
    var jdToday := JulianDate(today);
    match HourAngle(m, CosHourAngle(pc, m, -angle, m.declination(jdToday)))
    case None => sunset
    case Some(h) => SolarNoon(pc, m, jdToday) + h / 360.0
  }

  /** The two Isha conventions of the method table: a depression angle, or a
      fixed interval after Maghrib (Umm al-Qura's 90 minutes). */
  datatype IshaRule = DepressionAngle(degrees: real) | MinutesAfterMaghrib(minutes: real)

  function IshaRuleOf(cm: CalculationMethod): IshaRule
  {
    if cm == Makkah then MinutesAfterMaghrib(Params(Makkah).isha) else DepressionAngle(Params(cm).isha)
  }

  /** Isha under either convention; the interval is converted to a fraction of
      a Julian day. */
  function IshaTime(pc: PrayerCalculator, m: SolarModel, sunset: real, rule: IshaRule, today: CivilDate): (t: real)
    ensures rule.MinutesAfterMaghrib? ==> t == sunset + rule.minutes / 1440.0
    ensures rule.DepressionAngle? ==> t == IshaTimeAsWritten(pc, m, sunset, rule.degrees, today)
  {
    match rule
    case DepressionAngle(a) => IshaTimeAsWritten(pc, m, sunset, a, today)
    case MinutesAfterMaghrib(k) => sunset + k / 1440.0
  }

  /** `getAsrTime`: the elevation comes from the shadow-factor rule with
      today's declination; with no solution it falls back to the given solar
      noon, and otherwise it is no earlier than that noon. */
  function AsrTime(pc: PrayerCalculator, m: SolarModel, solarNoon: real, today: CivilDate): (t: real)
    ensures WellBehaved(m) ==> t >= solarNoon
    ensures HourAngle(m, AsrCosHourAngle(pc, m, today)).None? ==> t == solarNoon
  {
    match HourAngle(m, AsrCosHourAngle(pc, m, today))
    case None => solarNoon
    case Some(h) => solarNoon + h / 360.0
  }

  function AsrCosHourAngle(pc: PrayerCalculator, m: SolarModel, today: CivilDate): Option<real>
  {
    var delta := m.declination(JulianDate(today));
    CosHourAngle(pc, m, m.asrElevation(ToRadians(pc.latitude), delta), delta)
  }

  /** `getDhuhrTime` of the date's solar noon (the source passes the noon it
      has already computed): Dhuhr is solar noon, between sunrise and sunset. */
  function DhuhrTime(pc: PrayerCalculator, m: SolarModel, jd: real): (t: real)
    ensures t == SolarNoon(pc, m, jd)
    ensures WellBehaved(m) ==> Sunrise(pc, m, jd) <= t <= Sunset(pc, m, jd)
  {
    SolarNoon(pc, m, jd)
  }

  /** `getMaghribTime` of the date's sunset: Maghrib is sunset, no earlier
      than solar noon nor than sunrise. */
  function MaghribTime(pc: PrayerCalculator, m: SolarModel, jd: real): (t: real)
    ensures t == Sunset(pc, m, jd)
    ensures WellBehaved(m) ==> SolarNoon(pc, m, jd) <= t && Sunrise(pc, m, jd) <= t
  {
    Sunset(pc, m, jd)
  }

  /** The six times of one day, as Julian dates. */
  datatype JulianTimes = JulianTimes(fajr: real, sunrise: real, dhuhr: real, asr: real, maghrib: real, isha: real)

  /** The Julian part of `calculatePrayerTimes`, as written: every method's
      Isha value, Makkah's 90 included, is read as a depression angle. */
  function CalculateJulianTimes(pc: PrayerCalculator, m: SolarModel, date: CivilDate, today: CivilDate): (t: JulianTimes)
    ensures var jd := JulianDate(date);
            && t.sunrise == Sunrise(pc, m, jd)
            && t.dhuhr == SolarNoon(pc, m, jd)
            && t.maghrib == Sunset(pc, m, jd)
    ensures var delta := m.declination(JulianDate(today));
            && (HourAngle(m, CosHourAngle(pc, m, -Params(pc.calcMethod).fajr, delta)).None? ==> t.fajr == t.sunrise)
            && (HourAngle(m, CosHourAngle(pc, m, -Params(pc.calcMethod).isha, delta)).None? ==> t.isha == t.maghrib)
            && (HourAngle(m, AsrCosHourAngle(pc, m, today)).None? ==> t.asr == t.dhuhr)
  {
    var jd := JulianDate(date);
    var noon := SolarNoon(pc, m, jd);
    var sunrise := Sunrise(pc, m, jd);
    var sunset := Sunset(pc, m, jd);
    var params := Params(pc.calcMethod);
    JulianTimes(
      FajrTime(pc, m, sunrise, params.fajr, today),
      sunrise,
      DhuhrTime(pc, m, jd),
      AsrTime(pc, m, noon, today),
      MaghribTime(pc, m, jd),
      IshaTimeAsWritten(pc, m, sunset, params.isha, today))
  }

  /** The day's times with Isha under the method's intended convention (see
      `IshaRuleOf`); every other time is that of `CalculateJulianTimes`. */
  function CalculateJulianTimesIntended(pc: PrayerCalculator, m: SolarModel, date: CivilDate, today: CivilDate): (t: JulianTimes)
    ensures var w := CalculateJulianTimes(pc, m, date, today);
            && t.(isha := w.isha) == w
            && (pc.calcMethod != Makkah ==> t == w)
  {
    var w := CalculateJulianTimes(pc, m, date, today);
    w.(isha := IshaTime(pc, m, w.maghrib, IshaRuleOf(pc.calcMethod), today))
  }

  /** The order the day's times keep whatever the trigonometry returns:
      sunrise, Dhuhr, Asr and Maghrib around solar noon, Dhuhr at solar noon
      and Maghrib at sunset; when the day asked for is today, Fajr is no later
      and Isha no earlier than Dhuhr. Isha keeps that order under the
      intended convention too. */
  lemma {:induction false} DailyOrder(pc: PrayerCalculator, m: SolarModel, date: CivilDate, today: CivilDate)
    requires WellBehaved(m)
    ensures var t := CalculateJulianTimes(pc, m, date, today);
            var noon := SolarNoon(pc, m, JulianDate(date));
            && t.dhuhr == noon
            && t.maghrib == Sunset(pc, m, JulianDate(date))
            && t.sunrise <= t.dhuhr <= t.asr
            && t.dhuhr <= t.maghrib
            && (today == date ==> t.fajr <= t.dhuhr && t.dhuhr <= t.isha)
            && (today == date ==> t.dhuhr <= CalculateJulianTimesIntended(pc, m, date, today).isha)
  {
    var t := CalculateJulianTimes(pc, m, date, today);
    var rule := IshaRuleOf(pc.calcMethod);
    if rule.MinutesAfterMaghrib? {
      assert CalculateJulianTimesIntended(pc, m, date, today).isha == t.maghrib + rule.minutes / 1440.0;
      assert rule.minutes == 90.0;
    }
  }

  /** Fajr's fallback: when the sun never reaches the Fajr depression on the
      day used, Fajr is the sunrise time. */
  lemma FajrFallsBackToSunrise(pc: PrayerCalculator, m: SolarModel, date: CivilDate, today: CivilDate)
    requires HourAngle(m, CosHourAngle(pc, m, -Params(pc.calcMethod).fajr, m.declination(JulianDate(today)))).None?
    ensures CalculateJulianTimes(pc, m, date, today).fajr == CalculateJulianTimes(pc, m, date, today).sunrise
  {
  }

  /** The method table's Makkah Isha value, 90, read as a depression angle
      (as the source does): cos(phi + delta) <= 1 forces cosH <= -1, so unless
      phi + delta is a multiple of 360 degrees the solve has no solution and
      Isha is the sunset time. */
  lemma MakkahIshaAsWrittenIsSunset(pc: PrayerCalculator, m: SolarModel, sunset: real, today: CivilDate)
    requires m.sin(ToRadians(-90.0)) == -1.0
    requires var phi, delta := ToRadians(pc.latitude), m.declination(JulianDate(today));
             && m.cos(phi) * m.cos(delta) > 0.0
             && m.cos(phi + delta) == m.cos(phi) * m.cos(delta) - m.sin(phi) * m.sin(delta)
             && m.cos(phi + delta) < 1.0
    ensures IshaTimeAsWritten(pc, m, sunset, Params(Makkah).isha, today) == sunset
  {
    var phi, delta := ToRadians(pc.latitude), m.declination(JulianDate(today));
    var den := m.cos(phi) * m.cos(delta);
    var num := m.sin(ToRadians(-90.0)) - m.sin(phi) * m.sin(delta);
    assert num < -den;
    DivisionBounds(num, den, num / den, -1.0);
    assert CosHourAngle(pc, m, -90.0, delta).value == num / den;
  }

  /** As written, then, Makkah's Isha is the Maghrib time whenever the
      angle solve has no solution, which the lemma above shows for every
      latitude and declination with cos(phi + delta) < 1. */
  lemma MakkahIshaIsMaghribAsWritten(pc: PrayerCalculator, m: SolarModel, date: CivilDate, today: CivilDate)
    requires pc.calcMethod == Makkah
    requires m.sin(ToRadians(-90.0)) == -1.0
    requires var phi, delta := ToRadians(pc.latitude), m.declination(JulianDate(today));
             && m.cos(phi) * m.cos(delta) > 0.0
             && m.cos(phi + delta) == m.cos(phi) * m.cos(delta) - m.sin(phi) * m.sin(delta)
             && m.cos(phi + delta) < 1.0
    ensures var t := CalculateJulianTimes(pc, m, date, today);
            t.isha == t.maghrib
  {
    var t := CalculateJulianTimes(pc, m, date, today);
    MakkahIshaAsWrittenIsSunset(pc, m, t.maghrib, today);
  }

  /** With the interval convention, Makkah's Isha is 90 minutes after Maghrib. */
  lemma MakkahIshaFollowsMaghrib(pc: PrayerCalculator, m: SolarModel, date: CivilDate, today: CivilDate)
    requires pc.calcMethod == Makkah
    ensures var t := CalculateJulianTimesIntended(pc, m, date, today);
            t.isha == t.maghrib + 90.0 / 1440.0
  {
  }

  // ---------------------------------------------------------------------------
  // Qibla

  /** `(bearing + 360) % 360` with JavaScript's remainder: for any bearing that
      atan2 can produce, the result is in [0, 360) and is the same direction. */
  function NormalizeBearing(bearing: real): (r: real)
    requires -180.0 <= bearing <= 180.0
    ensures 0.0 <= r < 360.0
    ensures r == bearing || r == bearing + 360.0
  {
    RemOfNonNegative(bearing + 360.0, 360.0);
    assert Trunc((bearing + 360.0) / 360.0) <= 1;
    Rem(bearing + 360.0, 360.0)
  }

  datatype QiblaDirection = QiblaDirection(bearing: real, distance: real)

  /** The haversine term `a` of the distance to the Kaaba. */
  function HaversineTerm(pc: PrayerCalculator, m: SolarModel): real
  {
    var lat1, lon1 := ToRadians(pc.latitude), ToRadians(pc.longitude);
    var lat2, lon2 := ToRadians(KaabaLatitude), ToRadians(KaabaLongitude);
    var dLat, dLon := lat2 - lat1, lon2 - lon1;
    m.sin(dLat / 2.0) * m.sin(dLat / 2.0) + m.cos(lat1) * m.cos(lat2) * m.sin(dLon / 2.0) * m.sin(dLon / 2.0)
  }

  /** `calculateQiblaDirection`: the initial great-circle bearing towards the
      Kaaba, normalised into [0, 360), and the haversine distance in km on a
      sphere of radius 6371, which for a haversine term in [0, 1] is at most
      half the circumference. */
  function CalculateQiblaDirection(pc: PrayerCalculator, m: SolarModel): (r: QiblaDirection)
    requires WellBehaved(m)
    ensures 0.0 <= r.bearing < 360.0
    ensures 0.0 <= HaversineTerm(pc, m) <= 1.0 ==> 0.0 <= r.distance <= 6371.0 * Pi
  {
    var lat1, lon1 := ToRadians(pc.latitude), ToRadians(pc.longitude);
    var lat2, lon2 := ToRadians(KaabaLatitude), ToRadians(KaabaLongitude);
    var y := m.sin(lon2 - lon1) * m.cos(lat2);
    var x := m.cos(lat1) * m.sin(lat2) - m.sin(lat1) * m.cos(lat2) * m.cos(lon2 - lon1);
    var a := HaversineTerm(pc, m);
    var c := 2.0 * m.atan2(m.sqrt(a), m.sqrt(1.0 - a));
    QiblaDirection(NormalizeBearing(ToDegrees(m.atan2(y, x))), 6371.0 * c)
  }

  // ---------------------------------------------------------------------------
  // Clock strings

  /** The local hours and minutes of a Julian date (`getHours`, `getMinutes`
      of `julianToLocalTime`). */
  datatype ClockReading = ClockReading(hours: nat, minutes: nat)

  function Minutes(c: ClockReading): nat { c.hours * 60 + c.minutes }

  /** `hours * 60 + minutes` of `time.split(':').map(Number)`, a missing
      minutes field reading as 0 (`?? 0`); None stands for NaN. */
  function ParseClock(time: string): (r: Option<nat>)
    ensures ':' !in time ==> r == (if AllDigits(time) then Some(DigitsValue(time) * 60) else None)
  {
    assert ':' !in time ==> Split(time, ':') == [time] by {
      if ':' !in time {
        SplitNone(time, ':');
      }
    }
    var parts := Split(time, ':');
    var hours := NumberOf(parts[0]);
    var minutes := if |parts| > 1 then NumberOf(parts[1]) else Some(0);
    if hours.Some? && minutes.Some? then Some(hours.value * 60 + minutes.value) else None
  }

  lemma DigitsHaveNoColon(s: string)
    requires AllDigits(s)
    ensures ':' !in s
  {
    assert forall i :: 0 <= i < |s| ==> s[i] != ':';
  }

  /** The zero-padded `HH:MM` of `formatTime`; parsing it gives back the
      minutes since midnight. */
  function FormatTime(c: ClockReading): (s: string)
    ensures ParseClock(s) == Some(Minutes(c))
  {
    var h, mm := Pad2(c.hours), Pad2(c.minutes);
    DigitsHaveNoColon(h);
    DigitsHaveNoColon(mm);
    SplitTwo(h, mm, ':');
    h + [':'] + mm
  }

  /** For a clock reading of the day, `formatTime` gives exactly five
      characters, `HH:MM`, as the repository's test expects. */
  lemma FormatTimeShape(c: ClockReading)
    requires c.hours < 24 && c.minutes < 60
    ensures var s := FormatTime(c);
            |s| == 5 && s[2] == ':' && AllDigits(s[..2]) && AllDigits(s[3..])
            && DigitsValue(s[..2]) == c.hours && DigitsValue(s[3..]) == c.minutes
  {
    var s := FormatTime(c);
    assert s[..2] == Pad2(c.hours);
    assert s[3..] == Pad2(c.minutes);
  }

  /** `calculatePrayerTimes`: every time formatted by `formatTime` from the
      local clock reading of its Julian date. The strings read back as those
      clock readings. */
  function CalculatePrayerTimes(pc: PrayerCalculator, m: SolarModel, date: CivilDate, today: CivilDate,
                                localClock: real -> ClockReading): (r: PrayerTimes)
    ensures var t := CalculateJulianTimes(pc, m, date, today);
            && ParseClock(r.fajr) == Some(Minutes(localClock(t.fajr)))
            && ParseClock(r.sunrise) == Some(Minutes(localClock(t.sunrise)))
            && ParseClock(r.dhuhr) == Some(Minutes(localClock(t.dhuhr)))
            && ParseClock(r.asr) == Some(Minutes(localClock(t.asr)))
            && ParseClock(r.maghrib) == Some(Minutes(localClock(t.maghrib)))
            && ParseClock(r.isha) == Some(Minutes(localClock(t.isha)))
  {
    var t := CalculateJulianTimes(pc, m, date, today);
    PrayerTimes(
      FormatTime(localClock(t.fajr)),
      FormatTime(localClock(t.sunrise)),
      FormatTime(localClock(t.dhuhr)),
      FormatTime(localClock(t.asr)),
      FormatTime(localClock(t.maghrib)),
      FormatTime(localClock(t.isha)))
  }

  // ---------------------------------------------------------------------------
  // Next prayer

  datatype NextPrayerInfo = NextPrayerInfo(prayer: PrayerName, time: string, minutesUntil: Option<int>)

  /** The prayer's time reads as a number of minutes later than now. */
  predicate Upcoming(times: PrayerTimes, p: PrayerName, now: int)
  {
    var t := ParseClock(times.Of(p));
    t.Some? && t.value > now
  }

  /** The search of `getNextPrayer` from position k of the day's order on:
      the first prayer whose time is strictly later than now. */
  function FirstUpcoming(times: PrayerTimes, now: int, k: nat): (r: Option<PrayerName>)
    requires k <= |PrayerOrder|
    ensures r.Some? ==> k <= Rank(r.value) && Upcoming(times, r.value, now)
                        && forall q :: k <= Rank(q) < Rank(r.value) ==> !Upcoming(times, q, now)
    ensures r.None? ==> forall q :: k <= Rank(q) ==> !Upcoming(times, q, now)
    decreases |PrayerOrder| - k
  {
    if k == |PrayerOrder| then None
    else if Upcoming(times, PrayerOrder[k], now) then Some(PrayerOrder[k])
    else FirstUpcoming(times, now, k + 1)
  }

  /** `getNextPrayer` with the current minute of the day as a parameter: the
      first of Fajr, Dhuhr, Asr, Maghrib and Isha whose time is strictly later
      than now, with its own time string and the minutes until it; when none
      is left, tomorrow's Fajr, `fajr + (1440 - now)` minutes away. */
  function NextPrayer(times: PrayerTimes, now: int): (r: NextPrayerInfo)
    ensures r.time == times.Of(r.prayer)
    ensures forall q :: Rank(q) < Rank(r.prayer) ==> !Upcoming(times, q, now)
    ensures Upcoming(times, r.prayer, now) ==> r.minutesUntil == Some(ParseClock(times.Of(r.prayer)).value - now)
    ensures !Upcoming(times, r.prayer, now) ==>
              && r.prayer == Fajr
              && (forall q :: !Upcoming(times, q, now))
              && r.minutesUntil == (var f := ParseClock(times.fajr); if f.Some? then Some(f.value + (1440 - now)) else None)
  {
    var first := FirstUpcoming(times, now, 0);
    if first.Some? then
      var p := first.value;
      assert Upcoming(times, p, now);
      NextPrayerInfo(p, times.Of(p), Some(ParseClock(times.Of(p)).value - now))
    else
      assert forall q :: !Upcoming(times, q, now);
      var fajr := ParseClock(times.fajr);
      NextPrayerInfo(Fajr, times.fajr, if fajr.Some? then Some(fajr.value + (1440 - now)) else None)
  }

  /** For any minute of the day the countdown is at least one minute; it is
      NaN (None) only when the Fajr string does not read as a number. */
  lemma NextPrayerAtLeastOneMinute(times: PrayerTimes, now: int)
    requires 0 <= now <= 1439
    ensures var r := NextPrayer(times, now);
            && (r.minutesUntil.Some? ==> r.minutesUntil.value >= 1)
            && (r.minutesUntil.None? ==> ParseClock(times.fajr).None?)
  {
    var r := NextPrayer(times, now);
    if !Upcoming(times, r.prayer, now) {
      assert r.prayer == Fajr;
    }
  }
}
