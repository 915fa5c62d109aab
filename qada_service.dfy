/** Missed-prayer (qada) bookkeeping (src/services/qadaService.ts): five
    counters, an optional make-up plan, and the day records the service
    writes into.

    The key/value store is the service's own fields: the stored counters
    (absent until first saved), the stored plan, and the day records keyed by
    date. The clock is the `today` and `nowIso` parameters. */
module Qada {
  import opened Wrappers
  import opened JsMath
  import opened AppTypes
  import opened Constants

  const NoQada: QadaCount := QadaCount(0, 0, 0, 0, 0)

  predicate NonNegative(c: QadaCount)
  {
    c.fajr >= 0 && c.dhuhr >= 0 && c.asr >= 0 && c.maghrib >= 0 && c.isha >= 0
  }

  lemma NonNegativeEach(c: QadaCount)
    requires NonNegative(c)
    ensures forall p :: c.Get(p) >= 0
  {
  }

  /** The sum of the five counters. */
  function Total(c: QadaCount): (t: int)
    ensures NonNegative(c) ==> t >= 0
    ensures NonNegative(c) ==> forall p :: c.Get(p) <= t
  {
    c.Get(Fajr) + c.Get(Dhuhr) + c.Get(Asr) + c.Get(Maghrib) + c.Get(Isha)
  }

  /** Setting one counter changes the total by the difference. */
  lemma TotalOfSet(c: QadaCount, p: PrayerName, v: int)
    ensures Total(c.Set(p, v)) == Total(c) - c.Get(p) + v
    ensures NonNegative(c) && v >= 0 ==> NonNegative(c.Set(p, v))
  {
    var d := c.Set(p, v);
    assert forall q :: q != p ==> d.Get(q) == c.Get(q);
  }

  /** A prayer of a day record that was neither prayed nor logged as qada. */
  predicate Missed(p: Prayer)
  {
    !p.completed && !p.isQada
  }

  /** The blank prayer of the minimal day record. */
  function BlankPrayer(name: string): Prayer
  {
    Prayer(name, "", false, None, false, None, None)
  }

  /** The minimal record `logQadaInPrayerRecord` creates for a day without
      one: the five prayers, none completed, no time. */
  function BlankDay(date: string): (d: PrayerDay)
    ensures d.date == date && forall p :: !d.Get(p).completed && !d.Get(p).isQada && d.Get(p).time == ""
  {
    PrayerDay(date, BlankPrayer("Fajr"), BlankPrayer("Dhuhr"), BlankPrayer("Asr"),
              BlankPrayer("Maghrib"), BlankPrayer("Isha"))
  }

  /** A prayer marked as made up: qada, completed, logged now, its qada count
      (absent reads as 0) raised by count. */
  function MarkQada(p: Prayer, count: int, nowIso: string): (r: Prayer)
    ensures r.isQada && r.completed && r.loggedAt == Some(nowIso)
    ensures r.qadaCount == Some((if p.qadaCount.Some? then p.qadaCount.value else 0) + count)
    ensures r.name == p.name && r.time == p.time && r.snoozedCount == p.snoozedCount
  {
    p.(isQada := true, completed := true, loggedAt := Some(nowIso),
       qadaCount := Some((if p.qadaCount.Some? && p.qadaCount.value != 0 then p.qadaCount.value else 0) + count))
  }

  /** The statistics of `getQadaStatistics`. */
  datatype QadaStatistics = QadaStatistics(
    totalQada: int,
    completedThisWeek: int,
    completedThisMonth: int,
    averagePerDay: int,
    priorityPrayer: Option<PrayerName>)

  /** The search of `getQadaStatistics` and `generateRecommendedPlan`: the
      entries in key order, keeping the first one whose count is strictly
      greater than the best so far, starting from 0. None when no count is
      positive; otherwise the first prayer with the greatest count. */
  method PriorityPrayer(c: QadaCount) returns (r: Option<PrayerName>)
    ensures r.None? <==> forall q :: c.Get(q) <= 0
    ensures r.Some? ==> && c.Get(r.value) > 0
                        && (forall q :: c.Get(q) <= c.Get(r.value))
                        && (forall q :: Rank(q) < Rank(r.value) ==> c.Get(q) < c.Get(r.value))
  {
    var maxCount := 0;
    r := None;
    for i := 0 to |PrayerOrder|
      invariant r.None? ==> maxCount == 0 && forall q :: Rank(q) < i ==> c.Get(q) <= 0
      invariant r.Some? ==> && maxCount == c.Get(r.value) > 0 && Rank(r.value) < i
                            && (forall q :: Rank(q) < i ==> c.Get(q) <= maxCount)
                            && (forall q :: Rank(q) < Rank(r.value) ==> c.Get(q) < maxCount)
    {
      var p := PrayerOrder[i];
      RankOfOrder(i);
      if c.Get(p) > maxCount {
        maxCount := c.Get(p);
        r := Some(p);
      }
    }
  }

  /** One step of the end-of-day loop: the prayer at position i adds one
      exactly when it was missed, so the first i + 1 prayers are accounted for. */
  lemma EndOfDayStep(before: QadaCount, mid: QadaCount, after: QadaCount, day: PrayerDay, p: PrayerName, i: int)
    requires Rank(p) == i
    requires forall q :: mid.Get(q) == before.Get(q) + (if Rank(q) < i && Missed(day.Get(q)) then 1 else 0)
    requires after.Get(p) == mid.Get(p) + (if Missed(day.Get(p)) then 1 else 0)
    requires forall q :: q != p ==> after.Get(q) == mid.Get(q)
    ensures forall q :: after.Get(q) == before.Get(q) + (if Rank(q) < i + 1 && Missed(day.Get(q)) then 1 else 0)
  {
  }

  /** The counters a store holds: five zeros when none are stored. */
  function CountsOf(stored: Option<QadaCount>): QadaCount
  {
    if stored.Some? then stored.value else NoQada
  }

  class QadaService {
    /** The stored counters; None until they are first saved. */
    var storedCount: Option<QadaCount>
    var plan: Option<QadaPlan>
    /** The day records, keyed by ISO date. */
    var records: map<string, PrayerDay>

    /** The stored counters are never negative: every write floors at 0. */
    ghost predicate Valid()
      reads this
    {
      storedCount.Some? ==> NonNegative(storedCount.value)
    }

    constructor()
      ensures Valid() && storedCount == None && plan == None && records == map[]
    {
      storedCount := None;
      plan := None;
      records := map[];
    }

    /** `getQadaCount`: the stored counters, or five zeros when none are stored. */
    function GetQadaCount(): (c: QadaCount)
      reads this
      ensures storedCount.None? ==> c == NoQada
      ensures storedCount.Some? ==> c == storedCount.value
      ensures Valid() ==> NonNegative(c)
    {
      CountsOf(storedCount)
    }

    /** `getTotalQadaCount`: the sum of the five counters. */
    function GetTotalQadaCount(): (t: int)
      reads this
      ensures Valid() ==> t >= 0
      ensures storedCount.None? ==> t == 0
    {
      Total(GetQadaCount())
    }

    /** `updateQadaCount`: the named counter becomes max(0, old + increment);
        the other four keep their values and nothing else changes. */
    method UpdateQadaCount(p: PrayerName, increment: int)
      requires Valid()
      modifies this
      ensures Valid()
      ensures CountsOf(storedCount).Get(p) == MaxInt(0, CountsOf(old(storedCount)).Get(p) + increment)
      ensures forall q :: q != p ==> CountsOf(storedCount).Get(q) == CountsOf(old(storedCount)).Get(q)
      ensures storedCount.Some?
      ensures Total(CountsOf(storedCount)) == Total(CountsOf(old(storedCount))) - CountsOf(old(storedCount)).Get(p) + CountsOf(storedCount).Get(p)
      ensures plan == old(plan) && records == old(records)
    {
      var current := CountsOf(storedCount);
      var updated := current.Set(p, MaxInt(0, current.Get(p) + increment));
      TotalOfSet(current, p, MaxInt(0, current.Get(p) + increment));
      storedCount := Some(updated);
    }

    /** `processEndOfDay`: with no record for today nothing changes; otherwise
        every prayer of the record that is neither completed nor qada adds
        exactly one to its counter. */
    method ProcessEndOfDay(today: string)
      requires Valid()
      modifies this
      ensures Valid()
      ensures today !in old(records) ==> storedCount == old(storedCount)
      ensures today in old(records) ==>
                forall q :: CountsOf(storedCount).Get(q) == CountsOf(old(storedCount)).Get(q) + (if Missed(old(records)[today].Get(q)) then 1 else 0)
      ensures plan == old(plan) && records == old(records)
    {
      if today !in records {
        return;
      }
      var day := records[today];
      ghost var before := CountsOf(storedCount);
      for i := 0 to |PrayerOrder|
        invariant Valid() && plan == old(plan) && records == old(records)
        invariant forall q :: CountsOf(storedCount).Get(q) == before.Get(q) + (if Rank(q) < i && Missed(day.Get(q)) then 1 else 0)
      {
        var p := PrayerOrder[i];
        RankOfOrder(i);
        var prayer := day.Get(p);
        ghost var mid := CountsOf(storedCount);
        if !prayer.completed && !prayer.isQada {
          assert mid.Get(p) >= 0;
          UpdateQadaCount(p, 1);
        }
        EndOfDayStep(before, mid, CountsOf(storedCount), day, p, i);
      }
    }

    /** `logQadaInPrayerRecord`: today's record (a blank one when there is
        none) gets the prayer marked as qada; its other prayers and every
        other day stay as they were. */
    method LogQadaInPrayerRecord(p: PrayerName, count: int, today: string, nowIso: string)
      modifies this
      ensures today in records && records.Keys == old(records).Keys + {today}
      ensures var before := if today in old(records) then old(records)[today] else BlankDay(today);
              && records[today].date == before.date
              && records[today].Get(p) == MarkQada(before.Get(p), count, nowIso)
              && forall q :: q != p ==> records[today].Get(q) == before.Get(q)
      ensures forall d :: d in old(records) && d != today ==> records[d] == old(records)[d]
      ensures storedCount == old(storedCount) && plan == old(plan)
    {
      var day := if today in records then records[today] else BlankDay(today);
      var prayer := day.Get(p);
      day := day.Set(p, MarkQada(prayer, count, nowIso));
      records := records[today := day];
    }

    /** `logQadaPrayer`: the counter drops by count (floored at 0); an existing
        plan gains count completions, and no plan is created when there is
        none; today's record logs the prayer as qada. */
    method LogQadaPrayer(p: PrayerName, count: int, today: string, nowIso: string)
      requires Valid()
      modifies this
      ensures Valid()
      ensures CountsOf(storedCount).Get(p) == MaxInt(0, CountsOf(old(storedCount)).Get(p) - count)
      ensures forall q :: q != p ==> CountsOf(storedCount).Get(q) == CountsOf(old(storedCount)).Get(q)
      ensures old(plan).None? ==> plan.None?
      ensures old(plan).Some? ==> plan == Some(old(plan).value.(completedToday := old(plan).value.completedToday + count))
      ensures today in records && records.Keys == old(records).Keys + {today}
      ensures var before := if today in old(records) then old(records)[today] else BlankDay(today);
              && records[today].date == before.date
              && records[today].Get(p) == MarkQada(before.Get(p), count, nowIso)
              && forall q :: q != p ==> records[today].Get(q) == before.Get(q)
      ensures forall d :: d in old(records) && d != today ==> records[d] == old(records)[d]
    {
      ghost var before := if today in records then records[today] else BlankDay(today);
      UpdateQadaCount(p, -count);
      ghost var counts := storedCount;
      if plan.Some? {
        plan := Some(plan.value.(completedToday := plan.value.completedToday + count));
      }
      ghost var planAfter := plan;
      LogQadaInPrayerRecord(p, count, today, nowIso);
      assert storedCount == counts && plan == planAfter;
      assert records[today].Get(p) == MarkQada(before.Get(p), count, nowIso);
    }

    /** `getQadaStatistics`: the total, the plan's completions (0 without a
        plan) for both the week and the month, the plan's daily target (1
        without a plan or with a target of 0), and the priority prayer. */
    method GetQadaStatistics() returns (s: QadaStatistics)
      requires Valid()
      ensures s.totalQada == Total(CountsOf(storedCount)) && s.totalQada >= 0
      ensures s.completedThisWeek == s.completedThisMonth
              == (if plan.Some? then plan.value.completedToday else 0)
      ensures s.averagePerDay == (if plan.Some? && plan.value.dailyTarget != 0 then plan.value.dailyTarget else 1)
      ensures var c := CountsOf(storedCount);
              && (s.priorityPrayer.None? <==> forall q :: c.Get(q) == 0)
              && (s.priorityPrayer.Some? ==> forall q :: c.Get(q) <= c.Get(s.priorityPrayer.value))
              && (s.priorityPrayer.Some? ==>
                    forall q :: Rank(q) < Rank(s.priorityPrayer.value) ==> c.Get(q) < c.Get(s.priorityPrayer.value))
    {
      var counts := CountsOf(storedCount);
      NonNegativeEach(counts);
      var priority := PriorityPrayer(counts);
      var completed := if plan.Some? && plan.value.completedToday != 0 then plan.value.completedToday else 0;
      var target := if plan.Some? && plan.value.dailyTarget != 0 then plan.value.dailyTarget else 1;
      s := QadaStatistics(Total(counts), completed, completed, target, priority);
    }

    /** `generateRecommendedPlan`: the priority prayer (Fajr when no count is
        positive), a daily target of 3 above 100 missed prayers, 2 above 50
        and 1 otherwise, starting today with no completions. */
    method GenerateRecommendedPlan(today: string) returns (r: QadaPlan)
      requires Valid()
      ensures var t := Total(CountsOf(storedCount));
              r.dailyTarget == (if t > 100 then 3 else if t > 50 then 2 else 1)
      ensures r.completedToday == 0 && r.startDate == today
      ensures var c := CountsOf(storedCount);
              && ((forall q :: c.Get(q) == 0) ==> r.priorityPrayer == Fajr)
              && (forall q :: c.Get(q) <= c.Get(r.priorityPrayer))
              && (forall q :: Rank(q) < Rank(r.priorityPrayer) ==> c.Get(q) < c.Get(r.priorityPrayer))
    {
      var counts := CountsOf(storedCount);
      NonNegativeEach(counts);
      var total := Total(counts);
      var found := PriorityPrayer(counts);
      var priority := if found.Some? then found.value else Fajr;
      var target := 1;
      if total > 100 {
        target := 3;
      } else if total > 50 {
        target := 2;
      }
      r := QadaPlan(target, priority, today, 0);
    }

    /** `resetDailyProgress`: an existing plan's completions go back to 0. */
    method ResetDailyProgress()
      modifies this
      ensures old(plan).None? ==> plan.None?
      ensures old(plan).Some? ==> plan == Some(old(plan).value.(completedToday := 0))
      ensures storedCount == old(storedCount) && records == old(records)
    {
      if plan.Some? {
        plan := Some(plan.value.(completedToday := 0));
      }
    }
  }
}
