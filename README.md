# Qibla Finder core in Dafny

A model of the non-UI logic of the Qibla Finder prayer app (React Native,
TypeScript), with proofs about it. It covers:

- **Prayer times and Qibla** (`src/utils/prayerCalculations.ts`). The model has
  Meeus' Julian date, the hour-angle solves for sunrise, sunset, Fajr, Isha and
  Asr with their fallbacks, Dhuhr and Maghrib, the bearing normalisation,
  `HH:MM` formatting, and the next-prayer scheduler with its wrap to
  tomorrow's Fajr. The trigonometric functions and the solar series are
  parameters: they are the fields of a `SolarModel`, and a predicate
  `WellBehaved` fixes their ranges.
- **The compass engine** (`src/services/compassService.ts`), a class. Its fields
  are the current heading, the Qibla bearing, the 10-slot calibration window,
  the calibration flag, the subscription and the listener. The listener's
  calls are recorded in a field.
- **Qada bookkeeping** (`src/services/qadaService.ts`), **dhikr counters and
  sessions** (`src/services/dhikrService.ts`), and the **99 Names favourites and
  recitation log** (`src/services/asmaUlHusnaService.ts`). Each is a class whose
  fields are the key/value store entries it reads and writes.
- **Hijri calendar arithmetic** and queries over the fixed event table
  (`src/services/hijriCalendarService.ts`).
- **The countdown and status helpers** of the prayer list
  (`src/components/PrayerTimeWidget.tsx`).

Wall-clock readings are explicit parameters: the current minute of the day,
the day of the year, the day difference, today's date string, and "today" as a
civil date. JavaScript's number semantics are written out in `JsMath`:
truncated `%`, `Math.round`, `Math.trunc`. Its string semantics are written
out in `JsText`: `Number(...)` of a digit string, `split`, `padStart`,
`includes` and ASCII `toLowerCase`. A result that is `NaN` in the app is `None`
in the model.

Three facts of the code the model keeps as written: the sunrise and sunset
elevation is -0.83 degrees (`src/utils/prayerCalculations.ts:123` and `:146`);
the Qibla offset is brought into [-180, 180] by one shift of 360, so both ends
can occur (`src/services/compassService.ts:117-122`); and `calculateVariance`
returns the square root of the variance (`src/services/compassService.ts:148-152`),
which is compared with `calibrationThreshold`, 5 (`src/utils/constants.ts:69`), so "calibrated" is modelled as
variance < 25.

## Model

| member | source | states |
|---|---|---|
| AppTypes.PrayerDay.Set | src/types/index.ts:12-21 | writing one prayer of a day record changes that prayer only and keeps the date |
| AppTypes.QadaCount.Set | src/types/index.ts:23-29 | `count[p] = v` changes that counter only |
| Constants.Rank | src/utils/constants.ts:10 | every prayer has a position in `PRAYER_ORDER` and sits there |
| Constants.RankOfOrder | src/utils/constants.ts:10 | the prayer at position i of `PRAYER_ORDER` has rank i |
| Constants.Params | src/utils/constants.ts:74-95 | Fajr angles lie in [15, 19.5]; Isha angles lie in [15, 18] and never above Fajr, except Makkah's entry 90 |
| PrayerCalculations.JulianDate | src/utils/prayerCalculations.ts:83-99 | the Julian date (January and February counted as months 13 and 14 of the year before) is always a half-integer |
| PrayerCalculations.JulianDateNextDay | src/utils/prayerCalculations.ts:96-98 | two consecutive days of a month are exactly 1 apart |
| PrayerCalculations.YearTermFloor | src/utils/prayerCalculations.ts:96 | `floor(365.25 * n)` is the integer quotient 1461n/4 |
| PrayerCalculations.MonthTermFloor | src/utils/prayerCalculations.ts:97 | `floor(30.6001 * k)` is the integer quotient 306001k/10000 |
| PrayerCalculations.YearTermStep | src/utils/prayerCalculations.ts:96 | the year term grows by 366 into a year divisible by 4, otherwise by 365 |
| PrayerCalculations.CorrectionStep | src/utils/prayerCalculations.ts:93-94 | the Gregorian correction drops by 1 exactly at a century year that is not a multiple of 400 |
| PrayerCalculations.MonthTermTable | src/utils/prayerCalculations.ts:97 | the month term for months 4 to 15 is the table 122, 153, ..., 459 |
| PrayerCalculations.FebruaryDayNumbers | src/utils/prayerCalculations.ts:88-98 | the day numbers of 1 March and 1 February differ by the length of February in the Gregorian calendar |
| PrayerCalculations.FebruaryLength | src/utils/prayerCalculations.ts:88-98 | Julian dates of 1 March and 1 February differ by 28 or 29 days, following the Gregorian leap rule |
| PrayerCalculations.JanuaryAndDecemberLength | src/utils/prayerCalculations.ts:88-98 | January and December span 31 days across the year-boundary adjustment |
| PrayerCalculations.SpringToAutumnLength | src/utils/prayerCalculations.ts:96-98 | months March to November span their calendar lengths |
| PrayerCalculations.JulianDateMonthLength | src/utils/prayerCalculations.ts:83-99 | the first days of consecutive months are exactly the calendar month's length apart |
| PrayerCalculations.HourAngle | src/utils/prayerCalculations.ts:130-135 | acos is taken exactly when cosH is a number in [-1, 1]; the hour angle then lies in [0, 180] |
| PrayerCalculations.Sunrise | src/utils/prayerCalculations.ts:121-139 | falls back to solar noon when there is no solution; never after solar noon |
| PrayerCalculations.Sunset | src/utils/prayerCalculations.ts:144-162 | falls back to solar noon when there is no solution; never before solar noon |
| PrayerCalculations.FajrTime | src/utils/prayerCalculations.ts:180-195 | falls back to sunrise; otherwise not after today's solar noon (declination and noon come from "today", as the code does) |
| PrayerCalculations.IshaTimeAsWritten | src/utils/prayerCalculations.ts:200-215 | falls back to sunset; otherwise not before today's solar noon |
| PrayerCalculations.IshaTime | src/utils/constants.ts:87-90 | the intended Isha of the Makkah finding: an angle solve for the other methods, 90 minutes after Maghrib for Umm al-Qura |
| PrayerCalculations.AsrTime | src/utils/prayerCalculations.ts:227-245 | falls back to solar noon; never before solar noon |
| PrayerCalculations.DhuhrTime | src/utils/prayerCalculations.ts:220-222 | Dhuhr is the date's solar noon, between sunrise and sunset |
| PrayerCalculations.MaghribTime | src/utils/prayerCalculations.ts:250-252 | Maghrib is the date's sunset, no earlier than solar noon nor than sunrise |
| PrayerCalculations.CalculateJulianTimes | src/utils/prayerCalculations.ts:28-50 | sunrise, Dhuhr and Maghrib are the date's sunrise, noon and sunset; with no solution on today's declination Fajr is sunrise, Isha (the method's value read as an angle) is Maghrib and Asr is Dhuhr |
| PrayerCalculations.CalculateJulianTimesIntended | src/utils/constants.ts:87-90 | the corrected day: the same times with Isha by the intended rule, different only for Makkah |
| PrayerCalculations.DailyOrder | src/utils/prayerCalculations.ts:28-50 | for the times as the code computes them: Dhuhr is solar noon, Maghrib is sunset, sunrise <= Dhuhr <= Asr, Dhuhr <= Maghrib, and for today's date Fajr <= Dhuhr <= Isha; Isha under the intended convention is no earlier than Dhuhr either |
| PrayerCalculations.FajrFallsBackToSunrise | src/utils/prayerCalculations.ts:180-195 | with no solution for the Fajr angle, Fajr is the sunrise time |
| PrayerCalculations.MakkahIshaAsWrittenIsSunset | src/utils/constants.ts:87-90 | Makkah's `isha: 90` read as a depression angle never has a solution, so Isha collapses to sunset |
| PrayerCalculations.MakkahIshaIsMaghribAsWritten | src/utils/prayerCalculations.ts:28-50 | for Makkah the day's Isha as computed is the Maghrib time whenever cos(phi + delta) < 1 |
| PrayerCalculations.MakkahIshaFollowsMaghrib | src/utils/constants.ts:87-90 | under the intended convention Makkah's Isha is 90 minutes after Maghrib |
| PrayerCalculations.NormalizeBearing | src/utils/prayerCalculations.ts:64-67 | `(b + 360) % 360` lies in [0, 360) and is b or b + 360 for every b in [-180, 180] |
| PrayerCalculations.CalculateQiblaDirection | src/utils/prayerCalculations.ts:55-78 | the bearing lies in [0, 360); the distance lies in [0, 6371 * pi] when the haversine term is in [0, 1] |
| PrayerCalculations.FormatTime | src/utils/prayerCalculations.ts:270-276 | the `HH:MM` string reads back, as the next-prayer parser reads it, as hours * 60 + minutes |
| PrayerCalculations.FormatTimeShape | src/utils/prayerCalculations.ts:272-275 | for a clock reading of the day the string has five characters: two digits, ':', two digits |
| PrayerCalculations.CalculatePrayerTimes | src/utils/prayerCalculations.ts:28-50 | each of the six strings reads back as the local minute of its Julian time, as the code computes it (Makkah's Isha included) |
| PrayerCalculations.FirstUpcoming | src/utils/prayerCalculations.ts:318-331 | the first prayer, from position k on, whose time is strictly later than now; none only when no such prayer exists |
| PrayerCalculations.ParseClock | src/utils/prayerCalculations.ts:318-321 | a time without ':' reads as that many whole hours when it is a digit string, and as NaN otherwise (the `HH:MM` read-back is FormatTime's) |
| PrayerCalculations.NextPrayer | src/utils/prayerCalculations.ts:306-345 | the first of the five prayers whose time is later than now, with its own time string and minutes until it; otherwise Fajr at fajr + 1440 - now; never sunrise |
| PrayerCalculations.NextPrayerAtLeastOneMinute | src/utils/prayerCalculations.ts:324-338 | for every now in [0, 1439] the countdown is at least one minute, and NaN only when the Fajr string is not a number |
| CompassService.CalculateHeading | src/services/compassService.ts:93-109 | null exactly when abs(x) < 0.01 and abs(y) < 0.01; otherwise the heading lies in [0, 360) |
| CompassService.QiblaOffset | src/services/compassService.ts:114-125 | bearing - heading shifted by at most one turn, in [-180, 180] for bearing and heading in [0, 360) |
| CompassService.Window | src/services/compassService.ts:130-136 | the new reading is last and a window of at most 10 stays at most 10 |
| CompassService.WindowKeepsLatest | src/services/compassService.ts:130-136 | the window always holds the latest 10 readings in arrival order |
| CompassService.Variance | src/services/compassService.ts:148-153 | the variance is never negative |
| CompassService.ConstantReadingsAreConsistent | src/services/compassService.ts:139-142 | identical readings have variance 0 and count as calibrated |
| CompassService.JitterAcrossNorthIsNotConsistent | src/services/compassService.ts:139-153 | readings alternating between 359 and 1 degrees do not count as calibrated |
| CompassService.CardinalDirection | src/services/compassService.ts:214-218 | the index is round(h / 45) mod 8, the nearest of the eight directions; headings from 337.5 map back to "N" |
| CompassService.FormatHeading | src/services/compassService.ts:223-225 | the text starts with the rounded heading's digits and ends with the cardinal direction |
| CompassService.Compass.constructor | src/services/compassService.ts:9-18 | a fresh compass is unsubscribed, uncalibrated, with an empty window |
| CompassService.Compass.Initialize | src/services/compassService.ts:30-34 | the Qibla bearing becomes the calculator's bearing; nothing else changes |
| CompassService.Compass.StartCompassUpdates | src/services/compassService.ts:39-54 | subscribed with a listener; headings and calibration untouched |
| CompassService.Compass.StopCompassUpdates | src/services/compassService.ts:59-65 | unsubscribed, listener removed; headings and calibration untouched |
| CompassService.Compass.CheckCalibration | src/services/compassService.ts:130-143 | the window becomes `Window(old, heading)`; the flag is set only from 5 readings on, to variance < 25, and kept otherwise |
| CompassService.Compass.UpdateHeading | src/services/compassService.ts:70-88 | an invalid sample changes nothing and notifies no one; a valid one sets the heading, updates calibration and notifies the listener with the offset |
| CompassService.Compass.GetCalibrationStatus | src/services/compassService.ts:179-185 | progress min(len / 10, 1) lies in [0, 1]; it is 1 exactly from 10 readings and 0 exactly for an empty window |
| CompassService.Compass.ResetCalibration | src/services/compassService.ts:190-193 | the window is emptied and the flag cleared, so the status is (false, 0) |
| CompassService.Compass.GetQiblaAccuracy | src/services/compassService.ts:206-209 | the accuracy is abs(offset), at most 180, and at most 3 exactly when pointing towards the Qibla |
| CompassService.Compass.AlignmentThreshold | src/services/compassService.ts:198-201 | pointing towards the Qibla holds exactly when the heading is within 3 degrees of the bearing, across north included |
| Qada.Total | src/services/qadaService.ts:195-198 | the sum of five non-negative counters is non-negative and bounds each of them |
| Qada.BlankDay | src/services/qadaService.ts:163-175 | the minimal record has the date and five prayers not completed, not qada, with no time |
| Qada.MarkQada | src/services/qadaService.ts:178-184 | the prayer becomes qada and completed, logged now, its qada count (missing or 0 read as 0) raised by count, all else kept |
| Qada.PriorityPrayer | src/services/qadaService.ts:214-223 | none exactly when no count is positive; otherwise the first prayer in key order with the greatest count |
| Qada.QadaService.constructor | src/services/qadaService.ts:12 | a fresh store holds no counters, plan or records |
| Qada.QadaService.GetQadaCount | src/services/qadaService.ts:24-50 | the stored counters, or five zeros when none are stored; never negative |
| Qada.QadaService.GetTotalQadaCount | src/services/qadaService.ts:195-198 | the total is never negative and is 0 on a fresh store |
| Qada.QadaService.UpdateQadaCount | src/services/qadaService.ts:55-70 | the named counter becomes max(0, old + increment), the other four and the total's other terms are unchanged |
| Qada.QadaService.ProcessEndOfDay | src/services/qadaService.ts:75-94 | no record: no change; otherwise each prayer neither completed nor qada adds exactly 1 to its counter |
| Qada.QadaService.LogQadaInPrayerRecord | src/services/qadaService.ts:154-190 | today's record (a blank one when missing) gets the prayer marked as qada; its other prayers and other days are kept |
| Qada.QadaService.LogQadaPrayer | src/services/qadaService.ts:128-149 | the counter drops by count (floored at 0), an existing plan gains count completions, no plan is created; today's record (a blank one when missing) logs the prayer as qada, keeps its date and its other four prayers, and every other day's record is unchanged |
| Qada.QadaService.GetQadaStatistics | src/services/qadaService.ts:203-235 | the total, the plan's completions (`|| 0`), its target (`|| 1`), and the priority prayer: null exactly when all counts are 0, otherwise a greatest count and the first such in `PRAYER_ORDER` |
| Qada.QadaService.GenerateRecommendedPlan | src/services/qadaService.ts:267-296 | target 3 above 100, 2 above 50, else 1; no completions; the priority prayer, Fajr when no count is positive |
| Qada.QadaService.ResetDailyProgress | src/services/qadaService.ts:301-310 | an existing plan's completions go back to 0; no plan is created |
| Dhikr.DefaultsAreFresh | src/services/dhikrService.ts:41-122 | the 8 built-in items have distinct ids, count 0, built-in categories and targets 33, 33, 34, 100, 10, 10, 100, 7 |
| Dhikr.Current | src/services/dhikrService.ts:135-149 | the stored list when non-empty, otherwise the built-in list; never empty |
| Dhikr.IndexOf | src/services/dhikrService.ts:168 | `findIndex`: the first index with that id, or -1 exactly when there is none |
| Dhikr.FirstIndex | src/services/dhikrService.ts:168 | the first position of the id, -1 exactly when absent |
| Dhikr.FindById | src/services/dhikrService.ts:160-163 | `find(...) \|\| null`: the first item of the list with that id, null exactly when there is none |
| Dhikr.WithCount | src/services/dhikrService.ts:165-178 | same length and ids |
| Dhikr.WithCountFrame | src/services/dhikrService.ts:165-178 | only the first item with that id changes, and only its count; an unknown id changes nothing |
| Dhikr.WithoutId | src/services/dhikrService.ts:454-463 | keeps exactly the items with another id; a list without that id is unchanged (order: `WithoutIdOfConcat`) |
| Dhikr.WithoutIdOfConcat | src/services/dhikrService.ts:457 | the filter of a + b is the filter of a followed by that of b, so the kept items stay in order |
| Dhikr.WithoutIdOfOne | src/services/dhikrService.ts:457 | one item is kept exactly when its id differs |
| Dhikr.DeleteSplices | src/services/dhikrService.ts:454-463 | with distinct ids, deleting the id at i removes exactly that item: list[..i] + list[i+1..] |
| Dhikr.DeletedIdIsGone | src/services/dhikrService.ts:454-463 | after deletion the id is not found |
| Dhikr.Milestone | src/services/dhikrService.ts:207-216 | multiples of 33 and the target give the milestone pattern; medium only on other multiples of 10; light only off all of them |
| Dhikr.MilestoneMeaning | src/services/dhikrService.ts:207-216 | "success" iff count mod 33 = 0 or count = target; else "medium" iff count mod 10 = 0; else "light" |
| Dhikr.TasbihRound | src/services/dhikrService.ts:207-216 | in a round of 33, only 10, 20 and 30 give medium feedback and only 33 gives success |
| Dhikr.SessionIndex | src/services/dhikrService.ts:279 | the first session with that id, or -1 exactly when there is none |
| Dhikr.Upserted | src/services/dhikrService.ts:275-291 | adds at most one session (only when the id is new), contains the session, keeps the others, keeps ids unique |
| Dhikr.UpsertIdempotent | src/services/dhikrService.ts:275-291 | saving the same session twice is saving it once |
| Dhikr.Completing | src/services/dhikrService.ts:259-273 | only the matching session changes and it becomes completed; a missing id changes nothing |
| Dhikr.CompletedSessions | src/services/dhikrService.ts:313 | exactly the completed sessions |
| Dhikr.Stats | src/services/dhikrService.ts:303-357 | the totals count completed sessions only; the average is 0 without any |
| Dhikr.StatsAverage | src/services/dhikrService.ts:353 | the average is the exact average rounded, within one half |
| Dhikr.CompletedOfConcat | src/services/dhikrService.ts:313 | filtering distributes over concatenation |
| Dhikr.CountSumOfConcat | src/services/dhikrService.ts:324 | the count sum distributes over concatenation |
| Dhikr.OpenSessionDoesNotCount | src/services/dhikrService.ts:226-248 | saving a new open session leaves the totals unchanged |
| Dhikr.CompletingAddsItsCount | src/services/dhikrService.ts:259-273 | completing an open session adds one session and its count to the totals |
| Dhikr.DhikrService.constructor | src/services/dhikrService.ts:124-126 | a fresh store holds no items and no sessions |
| Dhikr.DhikrService.GetDhikrList | src/services/dhikrService.ts:135-149 | returns the stored list when non-empty, otherwise stores and returns the 8 built-in items at count 0 |
| Dhikr.DhikrService.UpdateDhikrCount | src/services/dhikrService.ts:165-178 | the stored list becomes the current list with that item's count set |
| Dhikr.DhikrService.ResetDhikrCount | src/services/dhikrService.ts:180-182 | the update with count 0 |
| Dhikr.DhikrService.ResetAllCounts | src/services/dhikrService.ts:184-193 | every item kept, in order, with count 0 |
| Dhikr.DhikrService.IncrementCount | src/services/dhikrService.ts:195-224 | an unknown id fails with "Dhikr not found"; otherwise stores and returns old + 1, with the milestone feedback when haptics are on |
| Dhikr.DhikrService.SaveSession | src/services/dhikrService.ts:275-291 | the sessions become the upsert of the session |
| Dhikr.DhikrService.UpdateSession | src/services/dhikrService.ts:250-257 | the sessions become the upsert of the session |
| Dhikr.DhikrService.StartSession | src/services/dhikrService.ts:226-248 | an unknown item fails; otherwise a session "session_" + now with count 0, the item's target, not completed, is saved |
| Dhikr.DhikrService.CompleteSession | src/services/dhikrService.ts:259-273 | the matching session is completed at now; others unchanged |
| Dhikr.DhikrService.GetStats | src/services/dhikrService.ts:303-357 | the totals of the stored sessions |
| Dhikr.DhikrService.AddCustomDhikr | src/services/dhikrService.ts:436-452 | appends one item "custom_" + now with count 0 and category custom, whatever the input |
| Dhikr.DhikrService.DeleteDhikr | src/services/dhikrService.ts:454-463 | the stored list becomes `WithoutId` of the current one: every item with that id removed, the others kept in order (`WithoutIdOfConcat`, `DeleteSplices`) |
| Dhikr.DhikrService.UpdateDhikrTarget | src/services/dhikrService.ts:465-478 | only the first matching item's target changes; an unknown id leaves the list as read |
| Dhikr.WithTarget | src/services/dhikrService.ts:465-478 | only the first item with that id changes, and only its target |
| Dhikr.StepAsWritten | src/services/dhikrService.ts:135-178 | one write as the code performs it: on an empty store the built-in array is the list written, so a count, a push or a target change becomes the built-in array; a delete leaves it alone |
| Dhikr.DeletingEveryIdEmptiesTheStore | src/services/dhikrService.ts:454-463 | deleting every id of a list with distinct ids empties the store and leaves the built-in array as it was |
| Dhikr.DriftAfterFreshWrite | src/services/dhikrService.ts:143-144 | on a fresh store, a count written and every item deleted: the store reads back the built-in array with that count |
| Dhikr.DefaultsDriftAsWritten | src/services/dhikrService.ts:143-144 | fresh store, count of "subhanallah" set to 5, all eight items deleted: the store is empty and reads back the built-in array with that item at count 5 |
| Dhikr.EmptiedStoreRestartsAtZero | src/services/dhikrService.ts:135-149 | with the built-in list kept constant: after any count update and the deletion of every item, the list reads back as the eight built-in items at count 0 |
| AsmaNames.TableNumbers | src/services/asmaUlHusnaService.ts:27-312 | the table has 35 rows numbered 1 to 30 and 95 to 99 |
| AsmaUlHusna.AllNames | src/services/asmaUlHusnaService.ts:325-336 | the table rows in order, each flagged as favourite iff its number is in the favourites |
| AsmaUlHusna.AllNamesIncreasing | src/services/asmaUlHusnaService.ts:325-336 | the names come in strictly increasing number |
| AsmaUlHusna.FindNumber | src/services/asmaUlHusnaService.ts:338-341 | a name with that number from the list, or null exactly when there is none |
| AsmaUlHusna.NameByNumber | src/services/asmaUlHusnaService.ts:338-341 | the row with that number, flagged from the favourites, or null when no row has it |
| AsmaUlHusna.NameByNumberRange | src/services/asmaUlHusnaService.ts:338-341 | a name is found exactly for 1 to 30 and 95 to 99 |
| AsmaUlHusna.Search | src/services/asmaUlHusnaService.ts:343-353 | keeps exactly the names matching the query, in order |
| AsmaUlHusna.Matches | src/services/asmaUlHusnaService.ts:345-351 | the empty query matches every name, and so does any query found in the Arabic as typed |
| AsmaUlHusna.SearchNames | src/services/asmaUlHusnaService.ts:343-353 | the matching names among all names, in table order |
| AsmaUlHusna.SearchKeepsAll | src/services/asmaUlHusnaService.ts:343-353 | a query every name matches returns the list unchanged |
| AsmaUlHusna.EmptyQueryKeepsAll | src/services/asmaUlHusnaService.ts:343-353 | the empty query returns every name |
| AsmaUlHusna.FavoritesOf | src/services/asmaUlHusnaService.ts:382-385 | exactly the flagged names, in order |
| AsmaUlHusna.FavoriteNames | src/services/asmaUlHusnaService.ts:382-385 | exactly the favourite rows, in table order |
| AsmaUlHusna.FavoriteNamesAreTheFavoriteRows | src/services/asmaUlHusnaService.ts:382-385 | a row is among the favourite names iff its number is a favourite |
| AsmaUlHusna.IndexOfNumber | src/services/asmaUlHusnaService.ts:367 | `indexOf`: the first position of the number, -1 exactly when absent |
| AsmaUlHusna.Toggle | src/services/asmaUlHusnaService.ts:364-380 | appends an absent number; for a present one, splices out its first occurrence and keeps the rest in order |
| AsmaUlHusna.ToggleFlips | src/services/asmaUlHusnaService.ts:364-380 | membership of the number flips, every other number keeps its membership, no duplicates appear |
| AsmaUlHusna.ToggleTwice | src/services/asmaUlHusnaService.ts:364-380 | two toggles restore membership, and the list itself when the number was absent |
| AsmaUlHusna.CountOnAppend | src/services/asmaUlHusnaService.ts:420 | one more entry dated today adds one to today's count |
| AsmaUlHusna.CountOn | src/services/asmaUlHusnaService.ts:420 | `filter(r => r.date === today).length`: 0 exactly when no entry has that date, the whole log exactly when all have it |
| AsmaUlHusna.Stats | src/services/asmaUlHusnaService.ts:414-465 | total is the log length, favourites the list length, sessions floor(total / 99), today's count at most the total |
| AsmaUlHusna.RecitationCounts | src/services/asmaUlHusnaService.ts:387-403 | one recitation adds one to the total and to today's count and completes a session every 99 |
| AsmaUlHusna.NameOfTheDay | src/services/asmaUlHusnaService.ts:563-589 | the name at (dayOfYear - 1) mod 35 for dayOfYear >= 1, always a table number |
| AsmaUlHusna.NameOfTheDayCycles | src/services/asmaUlHusnaService.ts:563-589 | the name of the day repeats every 35 days |
| AsmaUlHusna.AsmaUlHusnaService.constructor | src/services/asmaUlHusnaService.ts:314-316 | a fresh store holds no favourites and no recitations |
| AsmaUlHusna.AsmaUlHusnaService.ToggleFavorite | src/services/asmaUlHusnaService.ts:364-380 | the favourites become their toggle; the log is untouched |
| AsmaUlHusna.AsmaUlHusnaService.RecordRecitation | src/services/asmaUlHusnaService.ts:387-403 | appends exactly one entry with the number and leaves the old entries |
| AsmaUlHusna.AsmaUlHusnaService.GetStats | src/services/asmaUlHusnaService.ts:414-465 | the counters of the stored log and favourites |
| HijriCalendar.MonthName | src/services/hijriCalendarService.ts:201-204 | the nth month name for 1 to 12, '' otherwise |
| HijriCalendar.DayName | src/services/hijriCalendarService.ts:206-209 | the nth weekday name for 0 to 6, '' otherwise |
| HijriCalendar.GregorianToHijri | src/services/hijriCalendarService.ts:120-145 | day in 1..30, year >= 1, month in 1..13, the month name clamped to the 12 names, the day name with its "Al-Ahad" fallback |
| HijriCalendar.ConversionBounds | src/services/hijriCalendarService.ts:127-140 | the month is at most 13 and the day at most 30; both at least 1 for a non-negative day difference |
| HijriCalendar.ConversionRoundTrip | src/services/hijriCalendarService.ts:120-153 | converting a non-negative day difference and back lands within the same day |
| HijriCalendar.HijriToGregorian | src/services/hijriCalendarService.ts:146-152 | a date of year y (month 1 to 12, day 1 to 30) lies within year y's span of days from the epoch |
| HijriCalendar.IsRamadan | src/services/hijriCalendarService.ts:184-187 | a Ramadan day carries the name Ramadan |
| HijriCalendar.IsDhuAlHijjah | src/services/hijriCalendarService.ts:189-192 | a Dhu al-Hijjah day carries that name and is not Ramadan |
| HijriCalendar.ThirteenthMonth | src/services/hijriCalendarService.ts:131-141 | in exact real arithmetic, day difference 25869 gives month 13, named "Dhu al-Hijjah", which is neither Ramadan nor Dhu al-Hijjah |
| HijriCalendar.RamadanAndDhuAlHijjahExclusive | src/services/hijriCalendarService.ts:184-192 | no date is both; each carries its month's name |
| HijriCalendar.RamadanDates | src/services/hijriCalendarService.ts:194-199 | Ramadan runs from day 1 to day 29 of month 9: 28 days apart |
| HijriCalendar.IslamicEventsOf | src/services/hijriCalendarService.ts:155-163 | all 8 table events in order, in the given year (or the current one for 0), with their converted dates |
| HijriCalendar.OfMonth | src/services/hijriCalendarService.ts:179-182 | exactly the events of that month (order: `OfMonthOfConcat`) |
| HijriCalendar.EventsByMonth | src/services/hijriCalendarService.ts:179-182 | exactly the year's events of that month, in table order (`OfMonthOfConcat`, `DhuAlHijjahEventsInTableOrder`) |
| HijriCalendar.OfMonthOfConcat | src/services/hijriCalendarService.ts:181 | the month filter of a + b is that of a followed by that of b; one event is kept exactly when its month matches |
| HijriCalendar.DhuAlHijjahEventsInTableOrder | src/services/hijriCalendarService.ts:179-182 | month 12 lists Eid al-Adha, then the Day of Arafat, in table order |
| HijriCalendar.TableMonths | src/services/hijriCalendarService.ts:37-102 | the table's months are 1, 1, 3, 7, 9, 10, 12, 12 |
| HijriCalendar.EventsOfSomeMonths | src/services/hijriCalendarService.ts:179-182 | Ramadan's event is found in month 9 and month 2 has none |
| HijriCalendar.OfMonthNone | src/services/hijriCalendarService.ts:179-182 | a month no event has gives the empty list |
| HijriCalendar.OnOrAfter | src/services/hijriCalendarService.ts:174 | exactly the events on or after now |
| HijriCalendar.Insert | src/services/hijriCalendarService.ts:175 | inserting into a date-sorted list keeps it sorted and adds exactly the event |
| HijriCalendar.SortByDate | src/services/hijriCalendarService.ts:175 | sorted by date and a permutation of the input |
| HijriCalendar.SortKeepsTies | src/services/hijriCalendarService.ts:175 | two events of the same instant keep their order, as the stable sort does |
| HijriCalendar.SliceTo | src/services/hijriCalendarService.ts:176 | `slice(0, limit)`: a prefix of min(limit, n) events, counting a negative limit from the end |
| HijriCalendar.CurrentYear | src/services/hijriCalendarService.ts:115-118 | the year of today's conversion, at least 1 |
| HijriCalendar.UpcomingEvents | src/services/hijriCalendarService.ts:165-177 | with the default limit 5: exactly min(limit, n) of the n events of this and next year on or after now, sorted by date, and no event left out is earlier than one listed |
| HijriCalendar.UpcomingComplete | src/services/hijriCalendarService.ts:165-177 | with a limit of 16 or more every upcoming event of the two years is returned |
| HijriCalendar.UpcomingFromCandidates | src/services/hijriCalendarService.ts:171-176 | filtering, sorting and slicing any candidates gives min(limit, n) candidates on or after now, sorted, and the earliest of them |
| HijriCalendar.PrefixIsEarliest | src/services/hijriCalendarService.ts:175-176 | a prefix of a date-sorted list holds its earliest events |
| HijriCalendar.DatePart | src/services/hijriCalendarService.ts:211-214 | "day monthName year AH" ends in " AH" |
| HijriCalendar.FormatHijriDate | src/services/hijriCalendarService.ts:211-214 | "dayName, " followed by the date part when the weekday is included, the date part alone otherwise |
| PrayerTimeWidget.FormatTimeUntil | src/components/PrayerTimeWidget.tsx:69-76 | "Nm" under an hour; always ends in "m" |
| PrayerTimeWidget.FormatTimeUntilHours | src/components/PrayerTimeWidget.tsx:73-75 | from an hour on, the text is "hh rm" with h * 60 + r = minutes and r < 60, and the numbers read back to the countdown |
| PrayerTimeWidget.GetPrayerStatus | src/components/PrayerTimeWidget.tsx:78-92 | pending without a record; completed whatever the time; otherwise missed iff the prayer's minute is before now |
| PrayerTimeWidget.StatusAroundPrayerTime | src/components/PrayerTimeWidget.tsx:83-91 | a prayer at exactly the current minute is pending, and missed once now is past it |
| PrayerTimeWidget.UpcomingIsNotMissed | src/components/PrayerTimeWidget.tsx:90 | a prayer the next-prayer scheduler counts as upcoming is never shown as missed |
| JsMath.RemOfNonNegative | src/services/hijriCalendarService.ts:130 | JavaScript `%` of a non-negative number by a positive one lies in [0, b) |
| JsMath.RemOfNonPositive | src/services/hijriCalendarService.ts:130 | JavaScript `%` of a non-positive number lies in (-b, 0] |
| JsMath.IntRemZero | src/services/dhikrService.ts:207-210 | JavaScript `%` by a positive number is zero exactly on multiples, negative dividends included |
| JsMath.Round | src/services/compassService.ts:216 | `Math.round` is within one half of its argument |
| JsText.Pad2 | src/utils/prayerCalculations.ts:272-273 | `padStart(2, '0')` of a number gives at least two digits with the same value |
| JsText.NumberOf | src/utils/prayerCalculations.ts:319 | `Number` of a digit string (the empty string included) is a number; the model reads every other string as NaN |
| JsText.ToLowerCase | src/services/asmaUlHusnaService.ts:347-350 | lowercasing keeps the length and maps each character |

## Left out

- The solar series (`getSolarNoon`, `getSolarDeclination`) and every trigonometric value: they are fields of `SolarModel`. Only their ranges are assumed, so no numeric prayer time or bearing is computed. This includes the radians conversion `getSolarDeclination` applies twice.
- `julianToLocalTime` and the host time zone: `CalculatePrayerTimes` takes the Julian-to-clock conversion as a parameter. `getTimezoneOffset` reads the host clock and is not modelled.
- PrayerCalculations.HourAngle: a cosH of 0/0 (a pole where cos(phi) * cos(delta) is 0) is NaN in JavaScript and passes the range test, so the app would print "NaN:NaN"; the model takes the fallback there instead.
- The haversine distance is only bounded, not computed.
- CompassService.Compass.CheckCalibration: the standard deviation is compared as variance < 25, which is the same test without a square root.
- The magnetometer subscription and its update interval: a `subscribed` flag stands for them. The listener calls are recorded in a `notifications` field.
- The `getInstance` singletons and the async/await and try/catch paths of the services: storage is the services' own fields and never fails.
- `getQadaPlan`/`saveQadaPlan` are plain reads and writes of the `plan` field. The qada reminders that `saveQadaPlan` schedules belong to the notification service, which is not part of this model.
- Dhikr today/week/month windows, `mostUsedDhikr`, streaks and `exportData`. The windows and streaks depend on the wall clock and on sorting `toDateString()` strings. The haptics calls are reduced to the returned feedback value.
- Asma ul Husna `mostRecitedName`, streaks, `exportData` and `getRandomName` (it uses `Math.random`).
- AsmaUlHusna.Matches: lowercasing is ASCII only. Unicode case mapping beyond ASCII is not modelled; the Arabic field is matched raw, as the source does.
- Hijri custom events (storage), and `getCurrentHijriDate`'s clock: "now" is a day count parameter. The millisecond-to-day truncation of `Date` arithmetic and time zones are not modelled.
- HijriCalendar.ThirteenthMonth: the model computes with exact reals, whereas the app computes in binary floating point. The two differ on boundary days. In exact reals month 13 falls exactly on the days d = (35437m - 1) / 100 with m congruent to 73 modulo 100 (25869 is the first); there the binary remainder comes out just below twelve months and the app's month is 12. On multiples of 35437 days the binary remainder comes out just below 354.37 and the app's month is 13, where the exact model gives month 1 of the next year. The lemma is therefore a fact of the exact-real model only.
- Dhikr.DhikrService.GetDhikrList: the class keeps the built-in list as a constant, so an emptied store always comes back at count 0. The code hands out the shared `DEFAULT_DHIKR` array itself (src/services/dhikrService.ts:144), and `updateDhikrCount` (:171), `addCustomDhikr`'s push (:446) and `updateDhikrTarget` (:471) write into it when the store was empty. That sharing is modelled on values by `Dhikr.StepAsWritten` and shown by `Dhikr.DriftAfterFreshWrite` (see Findings); the class follows the evidently intended behaviour.
- Qada.PriorityPrayer: `Object.entries` order is taken to be fajr, dhuhr, asr, maghrib, isha, the order the counters are always created in.
- JsText.NumberOf: only plain digit strings are read as numbers. `Number` also accepts surrounding blanks, a sign and a decimal point; the app only parses the `HH:MM` strings it writes, which hold digits only.
- Notification, location and storage services, the screens and the navigation are not part of this model.

## Findings

| source | as written | input that shows it | evidently intended | confidence | as-written member | corrected member |
|---|---|---|---|---|---|---|
| src/utils/constants.ts:89; src/utils/prayerCalculations.ts:37,200-215 | Makkah's `isha: 90` is passed to `getIshaTime` as a depression angle, so sin(-90 deg) = -1 makes cosH <= -1 at every latitude and Isha falls back to sunset, the same minute as Maghrib | method Makkah at any latitude and date where cos(phi) * cos(delta) > 0 and phi + delta is not a whole turn | Umm al-Qura's Isha is 90 minutes after Maghrib | not executed | PrayerCalculations.MakkahIshaIsMaghribAsWritten | PrayerCalculations.MakkahIshaFollowsMaghrib |
| src/services/dhikrService.ts:143-144,171,446,471 | on an empty store `getDhikrList` returns the `DEFAULT_DHIKR` array itself, and `updateDhikrCount`, `addCustomDhikr` and `updateDhikrTarget` write into that shared array, so the built-in defaults drift | fresh store, `updateDhikrCount('subhanallah', 5)`, then `deleteDhikr` of all eight ids: `getDhikrList` returns `subhanallah` at count 5 | an empty store restarts from the built-in items at count 0 | not executed | Dhikr.DefaultsDriftAsWritten | Dhikr.EmptiedStoreRestartsAtZero |
