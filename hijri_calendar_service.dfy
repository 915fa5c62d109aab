/** The approximate Hijri calendar (src/services/hijriCalendarService.ts):
    conversion by average year and month lengths, the fixed table of eight
    Islamic events, and the queries over it.

    A Gregorian instant is the number of days since the Hijri epoch (16 July
    622) as an exact real; `gregorianToHijri` takes the whole-day difference
    the source computes with `Math.floor`, and the weekday `getDay` reports. */
module HijriCalendar {
  import opened Wrappers
  import opened JsMath
  import opened JsText

  datatype HijriDate = HijriDate(day: int, month: int, year: int, monthName: string, dayName: string, weekday: int)

  datatype EventType = Holiday | Observance | Commemoration

  /** An entry of the event table: everything but the Gregorian date. */
  datatype EventRow = EventRow(id: string, title: string, description: string, date: HijriDate,
                               eventType: EventType, significance: string)

  /** An event placed in a year, with its Gregorian instant. */
  datatype IslamicEvent = IslamicEvent(id: string, title: string, description: string, date: HijriDate,
                                       gregorianDate: real, eventType: EventType, significance: string)

  const HijriMonths: seq<string> := [
    "Muharram", "Safar", "Rabi al-Awwal", "Rabi al-Thani",
    "Jumada al-Awwal", "Jumada al-Thani", "Rajab", "Shaban",
    "Ramadan", "Shawwal", "Dhu al-Qadah", "Dhu al-Hijjah"
  ]

  const Weekdays: seq<string> := [
    "Al-Ahad", "Al-Ithnayn", "Al-Thulatha", "Al-Arbia",
    "Al-Khamis", "Al-Jumua", "As-Sabt"
  ]

  /** The average Hijri year and month, in days. */
  const YearLength: real := 354.37
  const MonthLength: real := 29.53

  const IslamicEvents: seq<EventRow> := [
    EventRow("new_year", "Islamic New Year", "Beginning of the new Hijri year",
             HijriDate(1, 1, 1446, "Muharram", "Al-Ahad", 0), Holiday,
             "Marks the beginning of the Islamic calendar and commemorates the Hijra (migration) of Prophet Muhammad (PBUH) from Mecca to Medina."),
    EventRow("ashura", "Day of Ashura", "The 10th day of Muharram",
             HijriDate(10, 1, 1446, "Muharram", "Al-Ithnayn", 1), Observance,
             "A day of fasting and remembrance, commemorating the day Allah saved Moses and the Israelites from Pharaoh."),
    EventRow("mawlid", "Mawlid an-Nabi", "Birthday of Prophet Muhammad (PBUH)",
             HijriDate(12, 3, 1446, "Rabi al-Awwal", "Al-Jumua", 5), Commemoration,
             "Celebrates the birth of Prophet Muhammad (PBUH) and reflects on his teachings and example."),
    EventRow("isra_miraj", "Isra and Mi'raj", "The Night Journey and Ascension",
             HijriDate(27, 7, 1446, "Rajab", "Al-Khamis", 4), Commemoration,
             "Commemorates the miraculous night journey of Prophet Muhammad (PBUH) from Mecca to Jerusalem and his ascension to heaven."),
    EventRow("laylat_qadr", "Laylat al-Qadr", "The Night of Power",
             HijriDate(27, 9, 1446, "Ramadan", "Al-Arbia", 3), Observance,
             "The night when the first verses of the Quran were revealed. It is better than a thousand months."),
    EventRow("eid_fitr", "Eid al-Fitr", "Festival of Breaking the Fast",
             HijriDate(1, 10, 1446, "Shawwal", "Al-Ithnayn", 1), Holiday,
             "Celebrates the end of Ramadan, the month of fasting. A time of joy, charity, and community gathering."),
    EventRow("eid_adha", "Eid al-Adha", "Festival of Sacrifice",
             HijriDate(10, 12, 1446, "Dhu al-Hijjah", "As-Sabt", 6), Holiday,
             "Commemorates Ibrahim's willingness to sacrifice his son as an act of obedience to Allah. Coincides with Hajj pilgrimage."),
    EventRow("arafat", "Day of Arafat", "The most important day of Hajj",
             HijriDate(9, 12, 1446, "Dhu al-Hijjah", "Al-Jumua", 5), Observance,
             "The day when pilgrims gather at Mount Arafat. A day of forgiveness and mercy for all Muslims.")
  ]

  // ---------------------------------------------------------------------------
  // Names

  /** `getMonthName`: the name of months 1 to 12, the empty string otherwise. */
  function MonthName(monthNumber: int): (s: string)
    ensures 1 <= monthNumber <= 12 ==> s == HijriMonths[monthNumber - 1] && s != ""
    ensures !(1 <= monthNumber <= 12) ==> s == ""
  {
    if 1 <= monthNumber <= |HijriMonths| then HijriMonths[monthNumber - 1] else ""
  }

  /** `getDayName`: the name of weekdays 0 (Sunday) to 6, the empty string
      otherwise. */
  function DayName(weekday: int): (s: string)
    ensures 0 <= weekday <= 6 ==> s == Weekdays[weekday] && s != ""
    ensures !(0 <= weekday <= 6) ==> s == ""
  {
    if 0 <= weekday < |Weekdays| then Weekdays[weekday] else ""
  }

  // ---------------------------------------------------------------------------
  // Conversion

  /** The year of a whole-day difference: whole average years elapsed, plus one. */
  function HijriYearOf(daysDifference: int): int
  {
    (daysDifference as real / YearLength).Floor + 1
  }

  /** `gregorianToHijri` for a whole-day difference from the epoch: whole
      average years, then whole average months of the remainder (JavaScript
      `%`), then whole days of what is left; day, month and year are floored
      at 1, and the month name is taken at the month clamped to 1..12. */
  function GregorianToHijri(daysDifference: int, weekday: int): (h: HijriDate)
    ensures 1 <= h.day <= 30 && h.year >= 1 && 1 <= h.month <= 13
    ensures h.monthName == HijriMonths[if h.month <= 12 then h.month - 1 else 11]
    ensures h.weekday == weekday
    ensures h.dayName == if 0 <= weekday <= 6 then Weekdays[weekday] else "Al-Ahad"
  {
    var hijriYear := HijriYearOf(daysDifference);
    var remainingDays := Rem(daysDifference as real, YearLength);
    var hijriMonth := (remainingDays / MonthLength).Floor + 1;
    var hijriDay := Rem(remainingDays, MonthLength).Floor + 1;
    var monthIndex := MinInt(MaxInt(hijriMonth - 1, 0), 11);
    ConversionBounds(daysDifference);
    HijriDate(MaxInt(hijriDay, 1), MaxInt(hijriMonth, 1), MaxInt(hijriYear, 1),
              HijriMonths[monthIndex],
              if 0 <= weekday < |Weekdays| then Weekdays[weekday] else "Al-Ahad",
              weekday)
  }

  /** The raw month lies in 1..13 from day 0 on and at most 1 before it; the
      raw day lies in 1..30 from day 0 on and at most 1 before it. */
  lemma ConversionBounds(daysDifference: int)
    ensures var remainingDays := Rem(daysDifference as real, YearLength);
            && (remainingDays / MonthLength).Floor + 1 <= 13
            && (daysDifference >= 0 ==> 1 <= (remainingDays / MonthLength).Floor + 1)
            && Rem(remainingDays, MonthLength).Floor + 1 <= 30
            && (daysDifference >= 0 ==> 1 <= Rem(remainingDays, MonthLength).Floor + 1)
  {
    var d := daysDifference as real;
    if d >= 0.0 {
      RemOfNonNegative(d, YearLength);
      RemOfNonNegative(Rem(d, YearLength), MonthLength);
    } else {
      RemOfNonPositive(d, YearLength);
      RemOfNonPositive(Rem(d, YearLength), MonthLength);
    }
  }

  /** `hijriToGregorian`: days since the epoch of the first day of the year,
      month and day, counted in average years and months. A date of year y
      (month 1 to 12, day 1 to 30) falls within year y's span of days. */
  function HijriToGregorian(h: HijriDate): (d: real)
    ensures h.year >= 1 && 1 <= h.month <= 12 && 1 <= h.day <= 30 ==>
              (h.year - 1) as real * YearLength <= d < h.year as real * YearLength
  {
    (h.year - 1) as real * YearLength + (h.month - 1) as real * MonthLength + (h.day - 1) as real
  }

  /** Converting a day from the epoch on to the Hijri calendar and back lands
      on the same day: less than one day before it, never after it. */
  lemma ConversionRoundTrip(daysDifference: int, weekday: int)
    requires daysDifference >= 0
    ensures var back := HijriToGregorian(GregorianToHijri(daysDifference, weekday));
            daysDifference as real - 1.0 < back <= daysDifference as real
  {
    var d := daysDifference as real;
    var rem := Rem(d, YearLength);
    RemOfNonNegative(d, YearLength);
    RemOfNonNegative(rem, MonthLength);
    var rem2 := Rem(rem, MonthLength);
    assert Trunc(d / YearLength) == (d / YearLength).Floor;
    assert Trunc(rem / MonthLength) == (rem / MonthLength).Floor;
    ConversionBounds(daysDifference);
    var h := GregorianToHijri(daysDifference, weekday);
    assert h.year - 1 == Trunc(d / YearLength);
    assert h.month - 1 == Trunc(rem / MonthLength);
    assert h.day - 1 == rem2.Floor;
  }

  /** In exact arithmetic, on a day whose remainder is exactly twelve average
      months (day 25869 from the epoch) the month comes out as 13: it is
      named Dhu al-Hijjah, yet it is neither Ramadan nor Dhu al-Hijjah.
      Binary floating point rounds that remainder just below twelve months,
      so this is a fact of the exact-real model. */
  lemma ThirteenthMonth()
    ensures GregorianToHijri(25869, 0).month == 13
    ensures GregorianToHijri(25869, 0).monthName == "Dhu al-Hijjah"
    ensures !IsRamadan(25869, 0) && !IsDhuAlHijjah(25869, 0)
  {
    var d := 25869.0;
    assert d / YearLength == 2586900.0 / 35437.0;
    assert (d / YearLength).Floor == 72;
    assert Trunc(d / YearLength) == 72;
    assert Rem(d, YearLength) == 354.36;
    assert 354.36 / MonthLength == 12.0;
    assert (Rem(d, YearLength) / MonthLength).Floor == 12;
  }

  /** `isRamadan`: the converted month is 9. */
  function IsRamadan(daysDifference: int, weekday: int): (b: bool)
    ensures b ==> GregorianToHijri(daysDifference, weekday).monthName == "Ramadan"
  {
    GregorianToHijri(daysDifference, weekday).month == 9
  }

  /** `isDhuAlHijjah`: the converted month is 12. */
  function IsDhuAlHijjah(daysDifference: int, weekday: int): (b: bool)
    ensures b ==> GregorianToHijri(daysDifference, weekday).monthName == "Dhu al-Hijjah"
    ensures b ==> !IsRamadan(daysDifference, weekday)
  {
    GregorianToHijri(daysDifference, weekday).month == 12
  }

  /** A day is never both, and a Ramadan day is named Ramadan. */
  lemma RamadanAndDhuAlHijjahExclusive(daysDifference: int, weekday: int)
    ensures !(IsRamadan(daysDifference, weekday) && IsDhuAlHijjah(daysDifference, weekday))
    ensures IsRamadan(daysDifference, weekday) ==> GregorianToHijri(daysDifference, weekday).monthName == "Ramadan"
    ensures IsDhuAlHijjah(daysDifference, weekday) ==> GregorianToHijri(daysDifference, weekday).monthName == "Dhu al-Hijjah"
  {
  }

  /** `getRamadanDates`: the instants of the 1st and the 29th of Ramadan of
      the year. */
  function RamadanDates(year: int): (r: (real, real))
    ensures r.1 - r.0 == 28.0
    ensures r.0 == (year - 1) as real * YearLength + 8.0 * MonthLength
  {
    (HijriToGregorian(HijriDate(1, 9, year, "Ramadan", "", 0)),
     HijriToGregorian(HijriDate(29, 9, year, "Ramadan", "", 0)))
  }

  // ---------------------------------------------------------------------------
  // Events

  /** A table event placed in a year. */
  function InYear(e: EventRow, year: int): IslamicEvent
  {
    var date := e.date.(year := year);
    IslamicEvent(e.id, e.title, e.description, date, HijriToGregorian(date), e.eventType, e.significance)
  }

  /** `getIslamicEvents`: the eight table events in table order, moved to
      the given year (the current year when it is 0 or absent), each with
      the Gregorian instant of its date in that year. */
  function IslamicEventsOf(year: int, currentYear: int): (events: seq<IslamicEvent>)
    ensures |events| == |IslamicEvents| == 8
    ensures forall k :: 0 <= k < |events| ==>
              && events[k].id == IslamicEvents[k].id
              && events[k].date == IslamicEvents[k].date.(year := if year != 0 then year else currentYear)
              && events[k].gregorianDate == HijriToGregorian(events[k].date)
  {
    var y := if year != 0 then year else currentYear;
    seq(|IslamicEvents|, k requires 0 <= k < |IslamicEvents| => InYear(IslamicEvents[k], y))
  }

  /** The events of one month, in order. */
  function OfMonth(events: seq<IslamicEvent>, month: int): (r: seq<IslamicEvent>)
    ensures |r| <= |events|
    ensures forall e :: e in r <==> e in events && e.date.month == month
  {
    if |events| == 0 then []
    else if events[0].date.month == month then [events[0]] + OfMonth(events[1..], month)
    else OfMonth(events[1..], month)
  }

  /** `getEventsByMonth`: the events of that month in that year, in table order. */
  function EventsByMonth(month: int, year: int, currentYear: int): (r: seq<IslamicEvent>)
    ensures forall e :: e in r <==> e in IslamicEventsOf(year, currentYear) && e.date.month == month
  {
    OfMonth(IslamicEventsOf(year, currentYear), month)
  }

  /** The month filter distributes over concatenation, so it keeps the
      events' order; a single event is kept exactly when its month matches. */
  lemma {:induction false} OfMonthOfConcat(a: seq<IslamicEvent>, b: seq<IslamicEvent>, month: int)
    ensures OfMonth(a + b, month) == OfMonth(a, month) + OfMonth(b, month)
    ensures forall e :: OfMonth([e], month) == if e.date.month == month then [e] else []
  {
    if |a| > 0 {
      assert (a + b)[1..] == a[1..] + b;
      OfMonthOfConcat(a[1..], b, month);
    } else {
      assert a + b == b;
    }
    forall e
      ensures OfMonth([e], month) == if e.date.month == month then [e] else []
    {
      assert [e][1..] == [];
    }
  }

  /** The months of the table events: Muharram twice, then Rabi al-Awwal,
      Rajab, Ramadan, Shawwal, and Dhu al-Hijjah twice. */
  lemma TableMonths()
    ensures seq(8, k requires 0 <= k < 8 => IslamicEvents[k].date.month) == [1, 1, 3, 7, 9, 10, 12, 12]
  {
  }

  /** Laylat al-Qadr is in Ramadan's list and Safar's list is empty. */
  lemma EventsOfSomeMonths(year: int)
    requires year != 0
    ensures InYear(IslamicEvents[4], year) in EventsByMonth(9, year, year)
    ensures EventsByMonth(2, year, year) == []
  {
    var events := IslamicEventsOf(year, year);
    assert events[4] == InYear(IslamicEvents[4], year);
    OfMonthNone(events, 2);
  }

  /** Dhu al-Hijjah's list is Eid al-Adha then the Day of Arafat: table
      order, although Arafat (the 9th) falls a day before the Eid (the 10th). */
  lemma DhuAlHijjahEventsInTableOrder(year: int, currentYear: int)
    ensures var events := IslamicEventsOf(year, currentYear);
            EventsByMonth(12, year, currentYear) == [events[6], events[7]]
  {
    var events := IslamicEventsOf(year, currentYear);
    TableMonths();
    assert forall k :: 0 <= k < 8 ==> events[k].date.month == IslamicEvents[k].date.month;
    OfMonthLastTwo(events, 12);
  }

  lemma OfMonthLastTwo(events: seq<IslamicEvent>, month: int)
    requires |events| == 8
    requires forall k :: 0 <= k < 6 ==> events[k].date.month != month
    requires events[6].date.month == month && events[7].date.month == month
    ensures OfMonth(events, month) == [events[6], events[7]]
  {
    var pre, last := events[..6], events[6..];
    assert events == pre + last;
    OfMonthNone(pre, month);
    OfMonthOfConcat(pre, last, month);
    assert last == [events[6]] + [events[7]];
    OfMonthOfConcat([events[6]], [events[7]], month);
  }

  /** A month that no event falls in has no events. */
  lemma {:induction false} OfMonthNone(events: seq<IslamicEvent>, month: int)
    requires forall k :: 0 <= k < |events| ==> events[k].date.month != month
    ensures OfMonth(events, month) == []
  {
    if |events| > 0 {
      OfMonthNone(events[1..], month);
    }
  }

  /** The events on or after an instant, in order. */
  function OnOrAfter(events: seq<IslamicEvent>, now: real): (r: seq<IslamicEvent>)
    ensures |r| <= |events|
    ensures forall e :: e in r <==> e in events && e.gregorianDate >= now
  {
    if |events| == 0 then []
    else if events[0].gregorianDate >= now then [events[0]] + OnOrAfter(events[1..], now)
    else OnOrAfter(events[1..], now)
  }

  predicate SortedByDate(events: seq<IslamicEvent>)
  {
    forall i, j :: 0 <= i < j < |events| ==> events[i].gregorianDate <= events[j].gregorianDate
  }

  /** Inserting an event into a date-ordered list before the first event
      that is not earlier than it, so it goes ahead of events of its own date. */
  function Insert(e: IslamicEvent, sorted: seq<IslamicEvent>): (r: seq<IslamicEvent>)
    requires SortedByDate(sorted)
    ensures SortedByDate(r)
    ensures multiset(r) == multiset(sorted) + multiset{e}
  {
    if |sorted| == 0 then [e]
    else if e.gregorianDate <= sorted[0].gregorianDate then
      SortedCons(e, sorted);
      [e] + sorted
    else
      var rest := Insert(e, sorted[1..]);
      assert sorted == [sorted[0]] + sorted[1..];
      HeadBeforeInserted(sorted, e, rest);
      [sorted[0]] + rest
  }

  /** The head of a date-ordered list that is earlier than e stays first
      once e is inserted into the tail. */
  lemma HeadBeforeInserted(sorted: seq<IslamicEvent>, e: IslamicEvent, rest: seq<IslamicEvent>)
    requires SortedByDate(sorted) && |sorted| > 0 && sorted[0].gregorianDate < e.gregorianDate
    requires SortedByDate(rest) && multiset(rest) == multiset(sorted[1..]) + multiset{e}
    ensures SortedByDate([sorted[0]] + rest)
  {
    MembersOfInsert(rest, sorted[1..], e);
    forall y | y in sorted[1..]
      ensures sorted[0].gregorianDate <= y.gregorianDate
    {
      var k :| 0 <= k < |sorted[1..]| && sorted[1..][k] == y;
      assert y == sorted[k + 1];
    }
    SortedCons(sorted[0], rest);
  }

  /** An event not later than any event of a date-ordered list can go first. */
  lemma SortedCons(x: IslamicEvent, s: seq<IslamicEvent>)
    requires SortedByDate(s)
    requires |s| > 0 ==> x.gregorianDate <= s[0].gregorianDate
    requires forall y :: y in s ==> x.gregorianDate <= y.gregorianDate
    ensures SortedByDate([x] + s)
  {
  }

  lemma MembersOfInsert(r: seq<IslamicEvent>, s: seq<IslamicEvent>, e: IslamicEvent)
    requires multiset(r) == multiset(s) + multiset{e}
    ensures forall x :: x in r ==> x in s || x == e
  {
    forall x | x in r
      ensures x in s || x == e
    {
      assert x in multiset(r);
    }
  }

  /** The ascending sort of `Array.prototype.sort` by Gregorian instant:
      ordered, and a permutation of its input; equal instants keep their
      order (`SortKeepsTies`). */
  function SortByDate(events: seq<IslamicEvent>): (r: seq<IslamicEvent>)
    ensures SortedByDate(r)
    ensures multiset(r) == multiset(events)
  {
    if |events| == 0 then []
    else
      assert events == [events[0]] + events[1..];
      Insert(events[0], SortByDate(events[1..]))
  }

  /** Events of the same instant keep their input order, as in the stable
      sort of `Array.prototype.sort`. */
  lemma SortKeepsTies(a: IslamicEvent, b: IslamicEvent)
    requires a.gregorianDate == b.gregorianDate
    ensures SortByDate([a, b]) == [a, b]
  {
    assert [a, b][1..] == [b];
    assert SortByDate([b]) == [b] by {
      assert [b][1..] == [];
    }
  }

  /** `slice(0, limit)`: a negative limit counts from the end. */
  function SliceTo(s: seq<IslamicEvent>, limit: int): (r: seq<IslamicEvent>)
    ensures limit >= 0 ==> |r| == MinInt(limit, |s|)
    ensures limit < 0 ==> |r| == MaxInt(|s| + limit, 0)
    ensures r == s[..|r|]
  {
    var end := if limit >= 0 then MinInt(limit, |s|) else MaxInt(|s| + limit, 0);
    s[..end]
  }

  /** The current Hijri year of an instant, as `getCurrentHijriDate` gives it. */
  function CurrentYear(now: real): (y: int)
    ensures y >= 1 && y == GregorianToHijri(now.Floor, 0).year
  {
    MaxInt(HijriYearOf(now.Floor), 1)
  }

  /** The events of the current Hijri year followed by those of the next. */
  function Candidates(now: real): seq<IslamicEvent>
  {
    IslamicEventsOf(CurrentYear(now), CurrentYear(now)) + IslamicEventsOf(CurrentYear(now) + 1, CurrentYear(now))
  }

  /** `getUpcomingEvents`, the limit defaulting to 5: this year's and next
      year's events that are not yet past, earliest first, cut to the limit.
      Exactly min(limit, n) events come back, n being the number not yet
      past, and none left out is earlier than one listed. */
  function UpcomingEvents(now: real, limit: int := 5): (r: seq<IslamicEvent>)
    ensures limit >= 0 ==> |r| == MinInt(limit, |OnOrAfter(Candidates(now), now)|)
    ensures SortedByDate(r)
    ensures forall e :: e in r ==> e in Candidates(now) && e.gregorianDate >= now
    ensures forall e, x :: e in OnOrAfter(Candidates(now), now) && e !in r && x in r ==>
              x.gregorianDate <= e.gregorianDate
  {
    UpcomingFromCandidates(Candidates(now), limit, now);
    SliceTo(SortByDate(OnOrAfter(Candidates(now), now)), limit)
  }

  /** With a limit of at least sixteen nothing is cut: every candidate not
      yet past is listed. */
  lemma UpcomingComplete(now: real, limit: int)
    requires limit >= 16
    ensures forall e :: e in Candidates(now) && e.gregorianDate >= now ==> e in UpcomingEvents(now, limit)
  {
    var upcoming := OnOrAfter(Candidates(now), now);
    var sorted := SortByDate(upcoming);
    assert |Candidates(now)| == 16;
    assert |sorted| == |upcoming| by {
      assert |multiset(sorted)| == |multiset(upcoming)|;
    }
    assert SliceTo(sorted, limit) == sorted;
    forall e | e in Candidates(now) && e.gregorianDate >= now
      ensures e in sorted
    {
      assert e in multiset(upcoming);
    }
  }

  /** Filtering, sorting and cutting keeps only candidates not yet past, in
      date order, as many as the limit allows, and the earliest ones: an
      upcoming candidate cut off is no earlier than any kept. */
  lemma UpcomingFromCandidates(candidates: seq<IslamicEvent>, limit: int, now: real)
    ensures var r := SliceTo(SortByDate(OnOrAfter(candidates, now)), limit);
            && SortedByDate(r)
            && (forall e :: e in r ==> e in candidates && e.gregorianDate >= now)
            && (limit >= 0 ==> |r| == MinInt(limit, |OnOrAfter(candidates, now)|))
            && (forall e, x :: e in OnOrAfter(candidates, now) && e !in r && x in r ==>
                  x.gregorianDate <= e.gregorianDate)
  {
    var upcoming := OnOrAfter(candidates, now);
    var sorted := SortByDate(upcoming);
    var r := SliceTo(sorted, limit);
    assert |sorted| == |upcoming| by {
      assert |multiset(sorted)| == |multiset(upcoming)|;
    }
    forall e | e in r
      ensures e in upcoming
    {
      assert e in sorted;
      assert e in multiset(sorted);
    }
    PrefixIsEarliest(sorted, |r|);
    forall e | e in upcoming
      ensures e in sorted
    {
      assert e in multiset(upcoming);
    }
  }

  /** A prefix of a date-ordered list holds its earliest events: any event
      past the prefix is no earlier than one inside it. */
  lemma PrefixIsEarliest(sorted: seq<IslamicEvent>, n: int)
    requires SortedByDate(sorted) && 0 <= n <= |sorted|
    ensures forall e, x :: e in sorted && e !in sorted[..n] && x in sorted[..n] ==> x.gregorianDate <= e.gregorianDate
  {
    var prefix := sorted[..n];
    assert forall k :: 0 <= k < n ==> prefix[k] == sorted[k];
    forall e, x | e in sorted && e !in prefix && x in prefix
      ensures x.gregorianDate <= e.gregorianDate
    {
      var j :| 0 <= j < |sorted| && sorted[j] == e;
      var i :| 0 <= i < n && prefix[i] == x;
      assert j >= n;
    }
  }

  // ---------------------------------------------------------------------------
  // Formatting

  /** The date without the weekday: "day monthName year AH". */
  function DatePart(h: HijriDate): (s: string)
    ensures |s| >= 3 && s[|s| - 3..] == " AH"
  {
    IntToString(h.day) + " " + h.monthName + " " + IntToString(h.year) + " AH"
  }

  /** `formatHijriDate`: the date, preceded by "dayName, " when the weekday
      is included. */
  function FormatHijriDate(h: HijriDate, includeWeekday: bool): (s: string)
    ensures includeWeekday ==> s == h.dayName + ", " + DatePart(h)
    ensures !includeWeekday ==> s == DatePart(h)
    ensures s[|s| - 3..] == " AH"
  {
    var weekdayPart := if includeWeekday then h.dayName + ", " else "";
    assert weekdayPart + DatePart(h) == (if includeWeekday then h.dayName + ", " + DatePart(h) else DatePart(h));
    weekdayPart + DatePart(h)
  }
}
