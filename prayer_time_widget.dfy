/** The two helpers of the prayer list (src/components/PrayerTimeWidget.tsx):
    the countdown text and the status of one prayer. The current minute of
    the day is a parameter. */
module PrayerTimeWidget {
  import opened Wrappers
  import opened JsMath
  import opened JsText
  import opened AppTypes
  import opened PrayerCalculations

  datatype PrayerStatus = Pending | Completed | Missed

  /** `formatTimeUntil`: "Nm" under an hour, otherwise "Hh Mm" with the whole
      hours (`Math.floor`) and the remaining minutes (JavaScript `%`). */
  function FormatTimeUntil(minutes: int): (s: string)
    ensures minutes < 60 ==> s == IntToString(minutes) + "m"
    ensures |s| >= 2 && s[|s| - 1] == 'm'
  {
    if minutes < 60 then IntToString(minutes) + "m"
    else
      var hours := (minutes as real / 60.0).Floor;
      var remainingMinutes := IntRem(minutes, 60);
      IntToString(hours) + "h " + IntToString(remainingMinutes) + "m"
  }

  /** From an hour on, the text shows h hours and r minutes with
      h * 60 + r == minutes and r < 60, and reading the two numbers back
      gives exactly the countdown. */
  lemma FormatTimeUntilHours(minutes: int)
    requires minutes >= 60
    ensures var h, r := minutes / 60, minutes % 60;
            && h >= 1 && 0 <= r < 60 && h * 60 + r == minutes
            && FormatTimeUntil(minutes) == NatToString(h) + "h " + NatToString(r) + "m"
            && DigitsValue(NatToString(h)) * 60 + DigitsValue(NatToString(r)) == minutes
  {
    var h, r := minutes / 60, minutes % 60;
    assert minutes as real / 60.0 == h as real + r as real / 60.0;
    assert (minutes as real / 60.0).Floor == h;
    IntRemOfNonNegative(minutes, 60);
    NatToStringRoundTrip(h);
    NatToStringRoundTrip(r);
  }

  /** `getPrayerStatus`: pending without a day record; completed when the
      record marks the prayer done, whatever the time; otherwise missed
      exactly when its time reads as a minute of the day before now (a time
      that does not read as a number is never missed). */
  function GetPrayerStatus(day: Option<PrayerDay>, p: PrayerName, now: int): (s: PrayerStatus)
    ensures day.None? ==> s == Pending
    ensures day.Some? && day.value.Get(p).completed ==> s == Completed
    ensures s == Missed <==> && day.Some? && !day.value.Get(p).completed
                             && ParseClock(day.value.Get(p).time).Some?
                             && ParseClock(day.value.Get(p).time).value < now
  {
    if day.None? then Pending
    else
      var prayer := day.value.Get(p);
      if prayer.completed then Completed
      else
        var prayerTime := ParseClock(prayer.time);
        if prayerTime.Some? && prayerTime.value < now then Missed else Pending
  }

  /** For a prayer stored with a time written by `formatTime`, the status is
      pending up to and including its own minute and missed strictly after. */
  lemma StatusAroundPrayerTime(day: PrayerDay, p: PrayerName, c: ClockReading, now: int)
    requires !day.Get(p).completed && day.Get(p).time == FormatTime(c)
    ensures GetPrayerStatus(Some(day), p, now) == (if now > Minutes(c) then Missed else Pending)
  {
  }

  /** A prayer the next-prayer scheduler still counts as upcoming is never
      shown as missed. */
  lemma UpcomingIsNotMissed(times: PrayerTimes, day: PrayerDay, p: PrayerName, now: int)
    requires day.Get(p).time == times.Of(p)
    requires Upcoming(times, p, now)
    ensures GetPrayerStatus(Some(day), p, now) != Missed
  {
  }
}
