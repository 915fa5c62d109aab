/** Dhikr (remembrance) counters and counting sessions
    (src/services/dhikrService.ts).

    The key/value store is two fields of the service: the stored item list
    (the empty list when nothing is stored) and the stored sessions. The clock
    is a `now` parameter in milliseconds, and the haptic call is the feedback
    pattern `IncrementCount` returns. */
module Dhikr {
  import opened Wrappers
  import opened JsMath
  import opened JsText

  datatype Category = Tasbih | Tahmid | Takbir | Istighfar | Salawat | Dua | Custom

  datatype DhikrItem = DhikrItem(
    id: string,
    arabic: string,
    transliteration: string,
    translation: string,
    count: int,
    target: int,
    category: Category,
    benefit: Option<string>)

  /** A counting session; times are milliseconds since the epoch. */
  datatype DhikrSession = DhikrSession(
    id: string,
    dhikrId: string,
    startTime: int,
    endTime: Option<int>,
    count: int,
    target: int,
    completed: bool)

  /** The haptic pattern played for a new count. */
  datatype Feedback = MilestoneNotification | MediumImpact | LightImpact

  /** The outcome of a successful `incrementCount`: the new count, and the
      pattern played when haptic feedback is on. */
  datatype Increment = Increment(newCount: int, feedback: Option<Feedback>)

  /** The eight built-in items, all starting at count 0. */
  const DefaultDhikr: seq<DhikrItem> := [
    DhikrItem("subhanallah", "سُبْحَانَ اللَّهِ", "Subhan Allah", "Glory be to Allah", 0, 33, Tasbih,
              Some("Glorifying Allah purifies the heart and brings peace to the soul.")),
    DhikrItem("alhamdulillah", "الْحَمْدُ لِلَّهِ", "Alhamdulillah", "All praise is due to Allah", 0, 33, Tahmid,
              Some("Praising Allah increases gratitude and fills the heart with contentment.")),
    DhikrItem("allahu_akbar", "اللَّهُ أَكْبَرُ", "Allahu Akbar", "Allah is the Greatest", 0, 34, Takbir,
              Some("Declaring Allah's greatness strengthens faith and provides protection.")),
    DhikrItem("astaghfirullah", "أَسْتَغْفِرُ اللَّهَ", "Astaghfirullah", "I seek forgiveness from Allah", 0, 100, Istighfar,
              Some("Seeking forgiveness cleanses the soul and opens doors to Allah's mercy.")),
    DhikrItem("salawat", "اللَّهُمَّ صَلِّ عَلَى مُحَمَّدٍ", "Allahumma salli ala Muhammad",
              "O Allah, send blessings upon Muhammad", 0, 10, Salawat,
              Some("Sending blessings upon the Prophet brings Allah's blessings upon you.")),
    DhikrItem("la_hawla", "لَا حَوْلَ وَلَا قُوَّةَ إِلَّا بِاللَّهِ", "La hawla wa la quwwata illa billah",
              "There is no power except with Allah", 0, 10, Dua,
              Some("This phrase is a treasure from the treasures of Paradise.")),
    DhikrItem("la_ilaha_illa_allah", "لَا إِلَٰهَ إِلَّا اللَّهُ", "La ilaha illa Allah", "There is no god but Allah", 0, 100, Tasbih,
              Some("The best dhikr that renews faith and brings the greatest reward.")),
    DhikrItem("hasbi_allah", "حَسْبِيَ اللَّهُ وَنِعْمَ الْوَكِيلُ", "Hasbi Allah wa ni'ma al-wakil",
              "Allah is sufficient for me, and He is the best disposer of affairs", 0, 7, Dua,
              Some("Perfect for times of worry and anxiety, brings peace and trust in Allah."))
  ]

  /** The built-in list: eight items with distinct ids, every count 0, and
      the targets 33, 33, 34, 100, 10, 10, 100, 7. */
  lemma DefaultsAreFresh()
    ensures |DefaultDhikr| == 8 && UniqueItemIds(DefaultDhikr)
    ensures forall k :: 0 <= k < |DefaultDhikr| ==> DefaultDhikr[k].count == 0 && DefaultDhikr[k].category != Custom
    ensures seq(8, k requires 0 <= k < 8 => DefaultDhikr[k].target) == [33, 33, 34, 100, 10, 10, 100, 7]
  {
  }

  predicate UniqueItemIds(list: seq<DhikrItem>)
  {
    forall i, j :: 0 <= i < j < |list| ==> list[i].id != list[j].id
  }

  /** The list the service works on: the stored one, or the built-in list
      when none (or an empty one) is stored. */
  function Current(stored: seq<DhikrItem>): (list: seq<DhikrItem>)
    ensures |list| > 0
    ensures |stored| > 0 ==> list == stored
  {
    if |stored| > 0 then stored else DefaultDhikr
  }

  // ---------------------------------------------------------------------------
  // Lookup by id

  /** The first position of id in a list of ids, or -1 when it is absent:
      the search of every `findIndex` by id in the service. */
  function FirstIndex(ids: seq<string>, id: string): (r: int)
    ensures -1 <= r < |ids|
    ensures r == -1 <==> id !in ids
    ensures r >= 0 ==> ids[r] == id && id !in ids[..r]
  {
    if |ids| == 0 then -1
    else if ids[0] == id then 0
    else
      var r := FirstIndex(ids[1..], id);
      assert r >= 0 ==> ids[..r + 1] == [ids[0]] + ids[1..][..r];
      if r == -1 then -1 else r + 1
  }

  function ItemIds(list: seq<DhikrItem>): (ids: seq<string>)
    ensures |ids| == |list| && forall k :: 0 <= k < |list| ==> ids[k] == list[k].id
  {
    seq(|list|, k requires 0 <= k < |list| => list[k].id)
  }

  /** `findIndex` by id: the first position holding id, or -1 when none does. */
  function IndexOf(list: seq<DhikrItem>, id: string): (r: int)
    ensures -1 <= r < |list|
    ensures r == -1 <==> forall k :: 0 <= k < |list| ==> list[k].id != id
    ensures r >= 0 ==> list[r].id == id && forall k :: 0 <= k < r ==> list[k].id != id
  {
    var ids := ItemIds(list);
    var r := FirstIndex(ids, id);
    assert r >= 0 ==> forall k :: 0 <= k < r ==> ids[..r][k] == ids[k];
    r
  }

  /** The search depends on the ids alone: two lists with the same ids in
      the same places find an id at the same place. */
  lemma IndexOfSameIds(a: seq<DhikrItem>, b: seq<DhikrItem>, id: string)
    requires |a| == |b| && forall k :: 0 <= k < |a| ==> a[k].id == b[k].id
    ensures IndexOf(a, id) == IndexOf(b, id)
  {
    assert ItemIds(a) == ItemIds(b);
  }

  /** An item appended under an id the list does not hold is found at the end. */
  lemma {:induction false} IndexOfAppended(list: seq<DhikrItem>, x: DhikrItem)
    requires forall k :: 0 <= k < |list| ==> list[k].id != x.id
    ensures IndexOf(list + [x], x.id) == |list|
  {
    if |list| > 0 {
      assert (list + [x])[1..] == list[1..] + [x];
      IndexOfAppended(list[1..], x);
    }
  }

  /** `getDhikrById`: the first item with that id, or null. */
  function FindById(list: seq<DhikrItem>, id: string): (r: Option<DhikrItem>)
    ensures r.None? <==> forall k :: 0 <= k < |list| ==> list[k].id != id
    ensures r.Some? ==> exists i :: 0 <= i < |list| && list[i] == r.value && list[i].id == id
                                    && forall k :: 0 <= k < i ==> list[k].id != id
  {
    var i := IndexOf(list, id);
    if i == -1 then None else Some(list[i])
  }

  /** The list with the count of the first item holding id replaced; the
      list itself when no item holds it. */
  function WithCount(list: seq<DhikrItem>, id: string, count: int): (r: seq<DhikrItem>)
    ensures |r| == |list|
    ensures forall k :: 0 <= k < |list| ==> r[k].id == list[k].id
  {
    var i := IndexOf(list, id);
    if i == -1 then list else list[i := list[i].(count := count)]
  }

  /** Setting a count touches only the first item holding the id: its count
      is the new one, its other fields and every other item are kept, and
      the item is then found with the new count. */
  lemma WithCountFrame(list: seq<DhikrItem>, id: string, count: int)
    ensures var r := WithCount(list, id, count); var i := IndexOf(list, id);
            && (forall k :: 0 <= k < |list| && k != i ==> r[k] == list[k])
            && (i >= 0 ==> r[i] == list[i].(count := count))
            && IndexOf(r, id) == i
            && (i >= 0 ==> FindById(r, id) == Some(list[i].(count := count)))
  {
    IndexOfSameIds(WithCount(list, id, count), list, id);
  }

  /** Every item without that id, in order. */
  function WithoutId(list: seq<DhikrItem>, id: string): (r: seq<DhikrItem>)
    ensures |r| <= |list|
    ensures forall x :: x in r <==> x in list && x.id != id
    ensures (forall k :: 0 <= k < |list| ==> list[k].id != id) ==> r == list
  {
    if |list| == 0 then []
    else if list[0].id == id then WithoutId(list[1..], id)
    else [list[0]] + WithoutId(list[1..], id)
  }

  /** Filtering distributes over concatenation: the kept items of a + b are
      the kept items of a followed by those of b, so together with
      `WithoutIdOfOne` the filter is pinned down and keeps the items' order. */
  lemma {:induction false} WithoutIdOfConcat(a: seq<DhikrItem>, b: seq<DhikrItem>, id: string)
    ensures WithoutId(a + b, id) == WithoutId(a, id) + WithoutId(b, id)
  {
    if |a| > 0 {
      assert (a + b)[1..] == a[1..] + b;
      WithoutIdOfConcat(a[1..], b, id);
    } else {
      assert a + b == b;
    }
  }

  /** A single item is kept exactly when its id differs. */
  lemma WithoutIdOfOne(x: DhikrItem, id: string)
    ensures WithoutId([x], id) == if x.id == id then [] else [x]
  {
    assert [x][1..] == [];
  }

  /** In a list whose ids are distinct, deleting the id of the item at i
      splices out that item alone and keeps the others in order. */
  lemma DeleteSplices(list: seq<DhikrItem>, i: int)
    requires UniqueItemIds(list) && 0 <= i < |list|
    ensures WithoutId(list, list[i].id) == list[..i] + list[i + 1..]
  {
    var pre, suf := list[..i], list[i + 1..];
    SpliceParts(list, i, pre, suf);
    OthersHaveOtherIds(list, i, pre, suf);
    WithoutOnlyMatch(pre, list[i], suf);
  }

  lemma SpliceParts(list: seq<DhikrItem>, i: int, pre: seq<DhikrItem>, suf: seq<DhikrItem>)
    requires 0 <= i < |list| && pre == list[..i] && suf == list[i + 1..]
    ensures list == pre + ([list[i]] + suf)
  {
  }

  lemma OthersHaveOtherIds(list: seq<DhikrItem>, i: int, pre: seq<DhikrItem>, suf: seq<DhikrItem>)
    requires UniqueItemIds(list) && 0 <= i < |list|
    requires pre == list[..i] && suf == list[i + 1..]
    ensures forall k :: 0 <= k < |pre| ==> pre[k].id != list[i].id
    ensures forall k :: 0 <= k < |suf| ==> suf[k].id != list[i].id
  {
    forall k | 0 <= k < |pre|
      ensures pre[k].id != list[i].id
    {
      assert pre[k] == list[k];
    }
    forall k | 0 <= k < |suf|
      ensures suf[k].id != list[i].id
    {
      assert suf[k] == list[i + 1 + k];
    }
  }

  lemma WithoutOnlyMatch(pre: seq<DhikrItem>, x: DhikrItem, suf: seq<DhikrItem>)
    requires forall k :: 0 <= k < |pre| ==> pre[k].id != x.id
    requires forall k :: 0 <= k < |suf| ==> suf[k].id != x.id
    ensures WithoutId(pre + ([x] + suf), x.id) == pre + suf
  {
    WithoutIdOfOne(x, x.id);
    WithoutIdOfConcat([x], suf, x.id);
    WithoutIdOfConcat(pre, [x] + suf, x.id);
  }

  /** After a deletion the id is gone from every remaining item. */
  lemma DeletedIdIsGone(list: seq<DhikrItem>, id: string)
    ensures IndexOf(WithoutId(list, id), id) == -1
  {
    var r := WithoutId(list, id);
    forall k | 0 <= k < |r|
      ensures r[k].id != id
    {
      assert r[k] in r;
    }
  }

  // ---------------------------------------------------------------------------
  // Milestones

  /** The haptic pattern for a new count: the milestone one on every multiple
      of 33 and on reaching the target, a medium one on other multiples of
      10, a light one otherwise. JavaScript's `%` is zero exactly on
      multiples, so the rule reads as divisibility for negative counts too. */
  function Milestone(newCount: int, target: int): (f: Feedback)
    ensures newCount % 33 == 0 || newCount == target ==> f == MilestoneNotification
    ensures f == MediumImpact ==> newCount % 10 == 0 && newCount % 33 != 0 && newCount != target
    ensures f == LightImpact ==> newCount % 10 != 0 && newCount % 33 != 0 && newCount != target
  {
    IntRemZero(newCount, 33);
    IntRemZero(newCount, 10);
    if IntRem(newCount, 33) == 0 || newCount == target then MilestoneNotification
    else if IntRem(newCount, 10) == 0 then MediumImpact
    else LightImpact
  }

  /** The classification read as divisibility for counts from 0 up: the
      milestone pattern exactly
      on multiples of 33 and on the target, the medium one exactly on the
      remaining multiples of 10. */
  lemma MilestoneMeaning(newCount: int, target: int)
    requires newCount >= 0
    ensures Milestone(newCount, target) == MilestoneNotification <==> newCount % 33 == 0 || newCount == target
    ensures Milestone(newCount, target) == MediumImpact <==>
              newCount % 33 != 0 && newCount != target && newCount % 10 == 0
    ensures Milestone(newCount, target) == LightImpact <==>
              newCount % 33 != 0 && newCount != target && newCount % 10 != 0
  {
    IntRemOfNonNegative(newCount, 33);
    IntRemOfNonNegative(newCount, 10);
  }

  /** One round of a 33-count tasbih from 1: light taps, medium ones at 10,
      20 and 30, and the milestone only on the 33rd. */
  lemma TasbihRound()
    ensures forall n :: 1 <= n < 33 ==> Milestone(n, 33) != MilestoneNotification
    ensures forall n :: 1 <= n < 33 ==> (Milestone(n, 33) == MediumImpact <==> n in {10, 20, 30})
    ensures Milestone(33, 33) == MilestoneNotification
  {
    forall n | 1 <= n < 33
      ensures Milestone(n, 33) != MilestoneNotification
      ensures Milestone(n, 33) == MediumImpact <==> n in {10, 20, 30}
    {
      MilestoneMeaning(n, 33);
    }
  }

  // ---------------------------------------------------------------------------
  // Sessions

  predicate UniqueSessionIds(sessions: seq<DhikrSession>)
  {
    forall i, j :: 0 <= i < j < |sessions| ==> sessions[i].id != sessions[j].id
  }

  function SessionIds(sessions: seq<DhikrSession>): (ids: seq<string>)
    ensures |ids| == |sessions| && forall k :: 0 <= k < |sessions| ==> ids[k] == sessions[k].id
  {
    seq(|sessions|, k requires 0 <= k < |sessions| => sessions[k].id)
  }

  /** `findIndex` by session id: the first position holding it, or -1. */
  function SessionIndex(sessions: seq<DhikrSession>, id: string): (r: int)
    ensures -1 <= r < |sessions|
    ensures r == -1 <==> forall k :: 0 <= k < |sessions| ==> sessions[k].id != id
    ensures r >= 0 ==> sessions[r].id == id && forall k :: 0 <= k < r ==> sessions[k].id != id
  {
    var ids := SessionIds(sessions);
    var r := FirstIndex(ids, id);
    assert r >= 0 ==> forall k :: 0 <= k < r ==> ids[..r][k] == ids[k];
    r
  }

  /** `saveSession`'s upsert: the session replaces the first one with its id,
      or is appended when there is none. At most one session is added, the
      saved one is then present, every session with another id stays in its
      place, and distinct ids stay distinct. */
  function Upserted(sessions: seq<DhikrSession>, s: DhikrSession): (r: seq<DhikrSession>)
    ensures |r| == |sessions| + (if SessionIndex(sessions, s.id) == -1 then 1 else 0)
    ensures s in r
    ensures forall k :: 0 <= k < |sessions| && sessions[k].id != s.id ==> r[k] == sessions[k]
    ensures UniqueSessionIds(sessions) ==> UniqueSessionIds(r)
  {
    var i := SessionIndex(sessions, s.id);
    if i != -1 then
      assert forall k :: 0 <= k < |sessions| ==> sessions[i := s][k].id == sessions[k].id;
      sessions[i := s]
    else
      sessions + [s]
  }

  /** Saving the same session twice stores it once. */
  lemma UpsertIdempotent(sessions: seq<DhikrSession>, s: DhikrSession)
    ensures Upserted(Upserted(sessions, s), s) == Upserted(sessions, s)
  {
    var once := Upserted(sessions, s);
    var i := SessionIndex(sessions, s.id);
    if i == -1 {
      assert SessionIndex(once, s.id) == |sessions| by {
        assert forall k :: 0 <= k < |sessions| ==> once[k].id != s.id;
      }
    } else {
      assert forall k :: 0 <= k < |sessions| ==> once[k].id == sessions[k].id;
      SessionIndexSameIds(once, sessions, s.id);
    }
  }

  lemma SessionIndexSameIds(a: seq<DhikrSession>, b: seq<DhikrSession>, id: string)
    requires |a| == |b| && forall k :: 0 <= k < |a| ==> a[k].id == b[k].id
    ensures SessionIndex(a, id) == SessionIndex(b, id)
  {
    assert SessionIds(a) == SessionIds(b);
  }

  /** `completeSession`'s change: the first session with that id gets an end
      time and is marked completed; no session changes when none has it. */
  function Completing(sessions: seq<DhikrSession>, id: string, now: int): (r: seq<DhikrSession>)
    ensures |r| == |sessions|
    ensures forall k :: 0 <= k < |sessions| && k != SessionIndex(sessions, id) ==> r[k] == sessions[k]
    ensures SessionIndex(sessions, id) >= 0 ==> r[SessionIndex(sessions, id)].completed
  {
    var i := SessionIndex(sessions, id);
    if i == -1 then sessions else sessions[i := sessions[i].(endTime := Some(now), completed := true)]
  }

  // ---------------------------------------------------------------------------
  // Statistics

  /** The completed sessions, in order. */
  function CompletedSessions(sessions: seq<DhikrSession>): (r: seq<DhikrSession>)
    ensures |r| <= |sessions|
    ensures forall s :: s in r <==> s in sessions && s.completed
  {
    if |sessions| == 0 then []
    else if sessions[0].completed then [sessions[0]] + CompletedSessions(sessions[1..])
    else CompletedSessions(sessions[1..])
  }

  /** The sum of the counts. */
  function CountSum(sessions: seq<DhikrSession>): int
  {
    if |sessions| == 0 then 0 else sessions[0].count + CountSum(sessions[1..])
  }

  /** The totals of `getStats`; the date windows, streaks and most-used item
      are not part of this model. */
  datatype DhikrStats = DhikrStats(totalSessions: int, totalCount: int, averagePerSession: int)

  /** `getStats` totals: the number of completed sessions, the sum of their
      counts, and the average rounded to the nearest integer (0 when no
      session is completed). */
  function Stats(sessions: seq<DhikrSession>): (st: DhikrStats)
    ensures st.totalSessions == |CompletedSessions(sessions)| >= 0
    ensures st.totalCount == CountSum(CompletedSessions(sessions))
    ensures st.totalSessions == 0 ==> st.averagePerSession == 0
  {
    var done := CompletedSessions(sessions);
    if |done| == 0 then DhikrStats(0, CountSum(done), 0)
    else DhikrStats(|done|, CountSum(done), Round(CountSum(done) as real / |done| as real))
  }

  /** The average per session is the exact average rounded: within half of
      it either way. */
  lemma StatsAverage(sessions: seq<DhikrSession>)
    ensures var st := Stats(sessions);
            st.totalSessions > 0 ==>
              (st.averagePerSession as real - 0.5) * st.totalSessions as real <= st.totalCount as real
              < (st.averagePerSession as real + 0.5) * st.totalSessions as real
  {
    var done := CompletedSessions(sessions);
    if |done| > 0 {
      RoundedAverage(CountSum(done), |done|);
    }
  }

  /** `Math.round(total / n)` is within half of the exact average. */
  lemma RoundedAverage(total: int, n: int)
    requires n > 0
    ensures var average := Round(total as real / n as real);
            (average as real - 0.5) * n as real <= total as real < (average as real + 0.5) * n as real
  {
    var average := Round(total as real / n as real);
    DivisionBounds(total as real, n as real, average as real - 0.5, average as real + 0.5);
  }

  lemma {:induction false} CompletedOfConcat(a: seq<DhikrSession>, b: seq<DhikrSession>)
    ensures CompletedSessions(a + b) == CompletedSessions(a) + CompletedSessions(b)
  {
    if |a| > 0 {
      assert (a + b)[1..] == a[1..] + b;
      CompletedOfConcat(a[1..], b);
    } else {
      assert a + b == b;
    }
  }

  lemma {:induction false} CountSumOfConcat(a: seq<DhikrSession>, b: seq<DhikrSession>)
    ensures CountSum(a + b) == CountSum(a) + CountSum(b)
  {
    if |a| > 0 {
      assert (a + b)[1..] == a[1..] + b;
      CountSumOfConcat(a[1..], b);
    } else {
      assert a + b == b;
    }
  }

  /** A session that is not completed does not count: saving a new one
      leaves the totals as they were. */
  lemma OpenSessionDoesNotCount(sessions: seq<DhikrSession>, s: DhikrSession)
    requires !s.completed
    ensures Stats(sessions + [s]) == Stats(sessions)
  {
    CompletedOfConcat(sessions, [s]);
    assert CompletedSessions([s]) == [];
    assert CompletedSessions(sessions) + [] == CompletedSessions(sessions);
  }

  /** The completed sessions of a list split around one session. */
  lemma CompletedAround(pre: seq<DhikrSession>, s: DhikrSession, suf: seq<DhikrSession>)
    ensures CompletedSessions(pre + [s] + suf)
            == CompletedSessions(pre) + CompletedSessions([s]) + CompletedSessions(suf)
  {
    CompletedOfConcat(pre + [s], suf);
    CompletedOfConcat(pre, [s]);
  }

  lemma CountSumOfThree(a: seq<DhikrSession>, b: seq<DhikrSession>, c: seq<DhikrSession>)
    ensures CountSum(a + b + c) == CountSum(a) + CountSum(b) + CountSum(c)
  {
    CountSumOfConcat(a + b, c);
    CountSumOfConcat(a, b);
  }

  /** Turning one open session of a list into a completed one with the same
      count adds one completed session and that count. */
  lemma CompletingOne(pre: seq<DhikrSession>, s: DhikrSession, t: DhikrSession, suf: seq<DhikrSession>)
    requires !s.completed && t.completed && t.count == s.count
    ensures |CompletedSessions(pre + [t] + suf)| == |CompletedSessions(pre + [s] + suf)| + 1
    ensures CountSum(CompletedSessions(pre + [t] + suf)) == CountSum(CompletedSessions(pre + [s] + suf)) + s.count
  {
    CompletedAround(pre, s, suf);
    CompletedAround(pre, t, suf);
    assert CompletedSessions([s]) == [];
    assert CompletedSessions([t]) == [t];
    var cp, cs := CompletedSessions(pre), CompletedSessions(suf);
    CountSumOfThree(cp, [], cs);
    CountSumOfThree(cp, [t], cs);
  }

  /** Completing an open session adds one completed session and its count
      to the totals. */
  lemma CompletingAddsItsCount(sessions: seq<DhikrSession>, id: string, now: int)
    requires SessionIndex(sessions, id) >= 0 && !sessions[SessionIndex(sessions, id)].completed
    ensures var i := SessionIndex(sessions, id);
            && Stats(Completing(sessions, id, now)).totalSessions == Stats(sessions).totalSessions + 1
            && Stats(Completing(sessions, id, now)).totalCount == Stats(sessions).totalCount + sessions[i].count
  {
    var i := SessionIndex(sessions, id);
    var s := sessions[i];
    var t := s.(endTime := Some(now), completed := true);
    SplitAt(sessions, i, s);
    SplitAt(sessions, i, t);
    assert Completing(sessions, id, now) == sessions[i := t];
    CompletingOne(sessions[..i], s, t, sessions[i + 1..]);
  }

  /** Replacing one element is splitting around it. */
  lemma SplitAt(xs: seq<DhikrSession>, i: nat, x: DhikrSession)
    requires i < |xs|
    ensures xs[i := x] == xs[..i] + [x] + xs[i + 1..]
    ensures x == xs[i] ==> xs == xs[..i] + [x] + xs[i + 1..]
  {
  }

  // ---------------------------------------------------------------------------
  // The service

  class DhikrService {
    /** The stored item list; empty when nothing is stored. */
    var stored: seq<DhikrItem>
    /** The stored sessions; empty when nothing is stored. */
    var sessions: seq<DhikrSession>

    constructor()
      ensures stored == [] && sessions == []
    {
      stored := [];
      sessions := [];
    }

    /** `getDhikrList`: the stored list when it is non-empty; otherwise the
        built-in list, which is stored and returned. */
    method GetDhikrList() returns (list: seq<DhikrItem>)
      modifies this
      ensures |old(stored)| > 0 ==> list == old(stored)
      ensures |old(stored)| == 0 ==> list == DefaultDhikr
      ensures |list| > 0 && stored == list && sessions == old(sessions)
    {
      if |stored| > 0 {
        return stored;
      }
      stored := DefaultDhikr;
      list := DefaultDhikr;
    }

    /** `updateDhikrCount`: the first item with that id takes the new count;
        an unknown id stores the list unchanged. */
    method UpdateDhikrCount(id: string, count: int)
      modifies this
      ensures stored == WithCount(Current(old(stored)), id, count)
      ensures sessions == old(sessions)
    {
      var list := GetDhikrList();
      var i := IndexOf(list, id);
      if i != -1 {
        list := list[i := list[i].(count := count)];
        stored := list;
      }
    }

    /** `resetDhikrCount`: `updateDhikrCount` with 0. */
    method ResetDhikrCount(id: string)
      modifies this
      ensures stored == WithCount(Current(old(stored)), id, 0)
      ensures sessions == old(sessions)
    {
      UpdateDhikrCount(id, 0);
    }

    /** `resetAllCounts`: every item keeps its place and fields with count 0. */
    method ResetAllCounts()
      modifies this
      ensures |stored| == |Current(old(stored))|
      ensures forall k :: 0 <= k < |stored| ==> stored[k] == Current(old(stored))[k].(count := 0)
      ensures sessions == old(sessions)
    {
      var list := GetDhikrList();
      stored := seq(|list|, k requires 0 <= k < |list| => list[k].(count := 0));
    }

    /** `incrementCount`: fails with "Dhikr not found" for an unknown id;
        otherwise stores and returns the count plus one, with the milestone
        pattern of the new count when haptic feedback is on. */
    method IncrementCount(id: string, hapticFeedback: bool) returns (r: Result<Increment, string>)
      modifies this
      ensures var before := Current(old(stored)); var i := IndexOf(before, id);
              && (r.Failure? <==> i == -1)
              && (r.Failure? ==> r.error == "Dhikr not found" && stored == before)
              && (r.Success? ==>
                    && r.value.newCount == before[i].count + 1
                    && stored == WithCount(before, id, r.value.newCount)
                    && r.value.feedback == (if hapticFeedback then Some(Milestone(r.value.newCount, before[i].target)) else None))
      ensures sessions == old(sessions)
    {
      var list := GetDhikrList();
      var found := FindById(list, id);
      if found.None? {
        return Failure("Dhikr not found");
      }
      var dhikr := found.value;
      var newCount := dhikr.count + 1;
      UpdateDhikrCount(id, newCount);
      var feedback := if hapticFeedback then Some(Milestone(newCount, dhikr.target)) else None;
      r := Success(Increment(newCount, feedback));
    }

    /** `saveSession`: replaces the session with the same id in place, or
        appends it. */
    method SaveSession(session: DhikrSession)
      modifies this
      ensures sessions == Upserted(old(sessions), session)
      ensures stored == old(stored)
    {
      var i := SessionIndex(sessions, session.id);
      if i != -1 {
        sessions := sessions[i := session];
      } else {
        sessions := sessions + [session];
      }
    }

    /** `updateSession`: `saveSession`. */
    method UpdateSession(session: DhikrSession)
      modifies this
      ensures sessions == Upserted(old(sessions), session)
      ensures stored == old(stored)
    {
      SaveSession(session);
    }

    /** `startSession`: fails with "Dhikr not found" for an unknown item;
        otherwise saves and returns a fresh session named after the clock,
        at count 0, not completed, aiming at the item's target. */
    method StartSession(dhikrId: string, now: int) returns (r: Result<DhikrSession, string>)
      modifies this
      ensures var before := Current(old(stored)); var i := IndexOf(before, dhikrId);
              && stored == before
              && (r.Failure? <==> i == -1)
              && (r.Failure? ==> r.error == "Dhikr not found" && sessions == old(sessions))
              && (r.Success? ==>
                    && r.value == DhikrSession("session_" + IntToString(now), dhikrId, now, None, 0, before[i].target, false)
                    && sessions == Upserted(old(sessions), r.value))
    {
      var list := GetDhikrList();
      var found := FindById(list, dhikrId);
      if found.None? {
        return Failure("Dhikr not found");
      }
      var session := DhikrSession("session_" + IntToString(now), dhikrId, now, None, 0, found.value.target, false);
      SaveSession(session);
      r := Success(session);
    }

    /** `completeSession`: the session with that id is ended now and marked
        completed; an unknown id changes nothing. */
    method CompleteSession(sessionId: string, now: int)
      modifies this
      ensures sessions == Completing(old(sessions), sessionId, now)
      ensures stored == old(stored)
    {
      var i := SessionIndex(sessions, sessionId);
      if i != -1 {
        sessions := sessions[i := sessions[i].(endTime := Some(now), completed := true)];
      }
    }

    /** `getStats` totals over the stored sessions. */
    function GetStats(): (st: DhikrStats)
      reads this
      ensures st.totalSessions <= |sessions|
      ensures st == Stats(sessions)
    {
      Stats(sessions)
    }

    /** `addCustomDhikr`: appends the item under a clock-made id, at count 0
        and in the custom category whatever the input said. */
    method AddCustomDhikr(dhikr: DhikrItem, now: int)
      modifies this
      ensures stored == Current(old(stored)) + [dhikr.(id := "custom_" + IntToString(now), count := 0, category := Custom)]
      ensures sessions == old(sessions)
    {
      var list := GetDhikrList();
      var item := dhikr.(id := "custom_" + IntToString(now), count := 0, category := Custom);
      list := list + [item];
      stored := list;
    }

    /** `deleteDhikr`: removes every item with that id, keeping the others
        in order. */
    method DeleteDhikr(id: string)
      modifies this
      ensures stored == WithoutId(Current(old(stored)), id)
      ensures sessions == old(sessions)
    {
      var list := GetDhikrList();
      stored := WithoutId(list, id);
    }

    /** `updateDhikrTarget`: the first item with that id takes the new
        target; an unknown id stores the list unchanged. */
    method UpdateDhikrTarget(id: string, target: int)
      modifies this
      ensures var before := Current(old(stored)); var i := IndexOf(before, id);
              && (i == -1 ==> stored == before)
              && (i >= 0 ==> stored == before[i := before[i].(target := target)])
      ensures sessions == old(sessions)
    {
      var list := GetDhikrList();
      var i := IndexOf(list, id);
      if i != -1 {
        list := list[i := list[i].(target := target)];
        stored := list;
      }
    }
  }

  // ---------------------------------------------------------------------------
  // The built-in list as the source shares it

  /** The writes to the item list: `updateDhikrCount`, `addCustomDhikr`'s
      push, `updateDhikrTarget`, and `deleteDhikr`'s filter. */
  datatype ListWrite =
    | SetCount(id: string, count: int)
    | Push(item: DhikrItem)
    | SetTarget(id: string, target: int)
    | Delete(id: string)

  /** The first item with that id takes the new target; the list itself when
      no item holds the id. */
  function WithTarget(list: seq<DhikrItem>, id: string, target: int): (r: seq<DhikrItem>)
    ensures |r| == |list| && forall k :: 0 <= k < |list| ==> r[k].id == list[k].id
    ensures var i := IndexOf(list, id);
            && (i >= 0 ==> r[i] == list[i].(target := target))
            && forall k :: 0 <= k < |list| && k != i ==> r[k] == list[k]
  {
    var i := IndexOf(list, id);
    if i == -1 then list else list[i := list[i].(target := target)]
  }

  /** The list a write produces from the list it reads. */
  function ApplyWrite(list: seq<DhikrItem>, w: ListWrite): seq<DhikrItem>
  {
    match w
    case SetCount(id, count) => WithCount(list, id, count)
    case Push(item) => list + [item]
    case SetTarget(id, target) => WithTarget(list, id, target)
    case Delete(id) => WithoutId(list, id)
  }

  /** The service's state as the source keeps it: the stored list, and the
      built-in array that `getDhikrList` hands out when nothing is stored. */
  datatype SharedState = SharedState(stored: seq<DhikrItem>, defaults: seq<DhikrItem>)

  /** `getDhikrList` as written: the stored list, or the built-in array
      itself. */
  function ListAsWritten(st: SharedState): seq<DhikrItem>
  {
    if |st.stored| > 0 then st.stored else st.defaults
  }

  /** One write as the source performs it. With nothing stored the list read
      is the built-in array; `updateDhikrCount` and `updateDhikrTarget` write
      into its elements and `addCustomDhikr` pushes onto it, so afterwards
      the built-in array is the newly stored list. `deleteDhikr` filters into
      a new array and leaves it alone. */
  function StepAsWritten(st: SharedState, w: ListWrite): (r: SharedState)
    ensures r.stored == ApplyWrite(ListAsWritten(st), w)
    ensures |st.stored| > 0 || w.Delete? ==> r.defaults == st.defaults
    ensures |st.stored| == 0 && !w.Delete? ==> r.defaults == r.stored
  {
    var list := ListAsWritten(st);
    var written := ApplyWrite(list, w);
    SharedState(written, if |st.stored| == 0 && !w.Delete? then written else st.defaults)
  }

  /** `deleteDhikr` of each id in turn, as written. */
  function DeleteEachAsWritten(st: SharedState, ids: seq<string>): SharedState
    decreases |ids|
  {
    if ids == [] then st else DeleteEachAsWritten(StepAsWritten(st, Delete(ids[0])), ids[1..])
  }

  /** `deleteDhikr` of each id in turn, on the model's service state (see
      `DhikrService.DeleteDhikr`). */
  function DeleteEach(stored: seq<DhikrItem>, ids: seq<string>): seq<DhikrItem>
    decreases |ids|
  {
    if ids == [] then stored else DeleteEach(WithoutId(Current(stored), ids[0]), ids[1..])
  }

  /** Deleting every id of a stored list with distinct ids, in order, empties
      the store; as written, the built-in array is left as it was. */
  lemma {:induction false} DeletingEveryIdEmptiesTheStore(stored: seq<DhikrItem>, defaults: seq<DhikrItem>)
    requires |stored| > 0 && UniqueItemIds(stored)
    ensures DeleteEach(stored, ItemIds(stored)) == []
    ensures DeleteEachAsWritten(SharedState(stored, defaults), ItemIds(stored)) == SharedState([], defaults)
  {
    var ids, rest := ItemIds(stored), stored[1..];
    DeleteFirst(stored, defaults);
    TailIds(stored);
    if |rest| > 0 {
      DeletingEveryIdEmptiesTheStore(rest, defaults);
    } else {
      assert ids[1..] == [];
    }
  }

  /** Deleting the first id of a list with distinct ids leaves its tail;
      as written, the built-in array is untouched. */
  lemma DeleteFirst(stored: seq<DhikrItem>, defaults: seq<DhikrItem>)
    requires |stored| > 0 && UniqueItemIds(stored)
    ensures var x, rest := stored[0].id, stored[1..];
            && ItemIds(stored)[0] == x
            && WithoutId(Current(stored), x) == rest
            && StepAsWritten(SharedState(stored, defaults), Delete(x)) == SharedState(rest, defaults)
  {
    var rest, x := stored[1..], stored[0].id;
    DeleteSplices(stored, 0);
    assert stored[..0] + stored[1..] == rest;
    assert WithoutId(stored, x) == rest;
    var st := SharedState(stored, defaults);
    assert ListAsWritten(st) == Current(stored) == stored;
    assert ApplyWrite(stored, Delete(x)) == rest;
  }

  /** The tail of a list with distinct ids holds the remaining ids, still
      distinct. */
  lemma TailIds(stored: seq<DhikrItem>)
    requires |stored| > 0 && UniqueItemIds(stored)
    ensures ItemIds(stored)[1..] == ItemIds(stored[1..])
    ensures UniqueItemIds(stored[1..])
  {
    var rest := stored[1..];
    assert ItemIds(stored)[1..] == ItemIds(rest);
    forall i, j | 0 <= i < j < |rest|
      ensures rest[i].id != rest[j].id
    {
      assert rest[i] == stored[i + 1] && rest[j] == stored[j + 1];
    }
  }

  /** As written: on a fresh store, a count written into the built-in array
      stays there after every item is deleted, and the emptied store reads
      the changed array back. */
  lemma DriftAfterFreshWrite(defaults: seq<DhikrItem>, id: string, count: int)
    requires |defaults| > 0 && UniqueItemIds(defaults) && IndexOf(defaults, id) >= 0
    ensures var st := StepAsWritten(SharedState([], defaults), SetCount(id, count));
            var emptied := DeleteEachAsWritten(st, ItemIds(st.stored));
            && emptied.stored == []
            && ListAsWritten(emptied) == WithCount(defaults, id, count)
            && ListAsWritten(emptied)[IndexOf(defaults, id)].count == count
  {
    var st := StepAsWritten(SharedState([], defaults), SetCount(id, count));
    WithCountFrame(defaults, id, count);
    assert st.stored == st.defaults == WithCount(defaults, id, count);
    assert UniqueItemIds(st.stored) by {
      assert forall k :: 0 <= k < |defaults| ==> st.stored[k].id == defaults[k].id;
    }
    DeletingEveryIdEmptiesTheStore(st.stored, st.defaults);
  }

  /** On a fresh store, setting "subhanallah" (the first built-in item) to 5
      and then deleting all eight items leaves a store that reads back the
      built-in array with that item at count 5, not 0. */
  lemma DefaultsDriftAsWritten()
    ensures var st := StepAsWritten(SharedState([], DefaultDhikr), SetCount("subhanallah", 5));
            var emptied := DeleteEachAsWritten(st, ItemIds(st.stored));
            && emptied.stored == []
            && ListAsWritten(emptied) == WithCount(DefaultDhikr, "subhanallah", 5)
            && ListAsWritten(emptied)[0] == DefaultDhikr[0].(count := 5)
  {
    DefaultIdsUnique();
    assert IndexOf(DefaultDhikr, "subhanallah") == 0;
    DriftAfterFreshWrite(DefaultDhikr, "subhanallah", 5);
    WithCountFrame(DefaultDhikr, "subhanallah", 5);
  }

  lemma DefaultIdsUnique()
    ensures |DefaultDhikr| == 8 && UniqueItemIds(DefaultDhikr) && DefaultDhikr[0].id == "subhanallah"
  {
    DefaultsAreFresh();
  }

  /** With the built-in list kept constant, as the model's service keeps it:
      whatever counts were written, once every item is deleted the list comes
      back as the eight built-in items at count 0. */
  lemma EmptiedStoreRestartsAtZero(stored: seq<DhikrItem>, id: string, count: int)
    requires UniqueItemIds(Current(stored))
    ensures var written := WithCount(Current(stored), id, count);
            var emptied := DeleteEach(written, ItemIds(written));
            && emptied == []
            && Current(emptied) == DefaultDhikr
            && forall k :: 0 <= k < |Current(emptied)| ==> Current(emptied)[k].count == 0
  {
    var written := WithCount(Current(stored), id, count);
    assert UniqueItemIds(written) by {
      assert forall k :: 0 <= k < |written| ==> written[k].id == Current(stored)[k].id;
    }
    DeletingEveryIdEmptiesTheStore(written, DefaultDhikr);
    DefaultsAreFresh();
  }
}
