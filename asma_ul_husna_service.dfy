/** The names of Allah (src/services/asmaUlHusnaService.ts): the names table
    flagged with the user's favourites, search, the favourites toggle, and
    the recitation log with its counters.

    The key/value store is two fields of the service: the favourite numbers
    and the recitation log (each the empty list when nothing is stored). The
    clock is the `today`, `nowIso` and `dayOfYear` parameters. */
module AsmaUlHusna {
  import opened Wrappers
  import opened JsMath
  import opened JsText
  import opened AsmaNames

  /** A row of the table with its favourite flag. */
  datatype AsmaName = AsmaName(
    number: int,
    arabic: string,
    transliteration: string,
    translation: string,
    meaning: string,
    benefit: Option<string>,
    isFavorite: bool)

  /** One entry of the recitation log: the name's number, the day
      (`toDateString`) and the moment (`toISOString`) it was recited. */
  datatype Recitation = Recitation(number: int, date: string, timestamp: string)

  /** The counters of `getStats`; the streaks and the most recited name are
      not part of this model. */
  datatype AsmaStats = AsmaStats(totalRecitations: int, favoriteCount: int, completedSessions: int, todayRecitations: int)

  function Flagged(row: NameRow, isFavorite: bool): AsmaName
  {
    AsmaName(row.number, row.arabic, row.transliteration, row.translation, row.meaning, row.benefit, isFavorite)
  }

  /** The numbers strictly increase along the list. */
  predicate IncreasingNumbers(names: seq<AsmaName>)
  {
    forall i, j :: 0 <= i < j < |names| ==> names[i].number < names[j].number
  }

  // ---------------------------------------------------------------------------
  // The table with favourites

  /** `getAllNames`: every row of the table, in table order, flagged as a
      favourite exactly when its number is among the favourites. */
  function AllNames(favorites: seq<int>): (names: seq<AsmaName>)
    ensures |names| == |Table|
    ensures forall k :: 0 <= k < |Table| ==> names[k] == Flagged(Table[k], Table[k].number in favorites)
  {
    seq(|Table|, k requires 0 <= k < |Table| => Flagged(Table[k], Table[k].number in favorites))
  }

  /** The names come in increasing number order. */
  lemma AllNamesIncreasing(favorites: seq<int>)
    ensures IncreasingNumbers(AllNames(favorites))
  {
    TableNumbers();
  }

  /** `find` by number: the first name with that number. */
  function FindNumber(names: seq<AsmaName>, n: int): (r: Option<AsmaName>)
    ensures r.None? <==> forall k :: 0 <= k < |names| ==> names[k].number != n
    ensures r.Some? ==> r.value.number == n && r.value in names
  {
    if |names| == 0 then None
    else if names[0].number == n then Some(names[0])
    else FindNumber(names[1..], n)
  }

  /** `getNameByNumber`: the name with that number and its favourite flag,
      or null when the table has no such row. */
  function NameByNumber(favorites: seq<int>, n: int): (r: Option<AsmaName>)
    ensures r.None? <==> forall k :: 0 <= k < |Table| ==> Table[k].number != n
    ensures r.Some? ==> r.value.number == n && r.value.isFavorite == (n in favorites) && r.value in AllNames(favorites)
  {
    FindNumber(AllNames(favorites), n)
  }

  /** Only the numbers 1 to 30 and 95 to 99 have a name; 31 to 94 give null. */
  lemma NameByNumberRange(favorites: seq<int>, n: int)
    ensures NameByNumber(favorites, n).Some? <==> 1 <= n <= 30 || 95 <= n <= 99
  {
    TableNumbers();
    if 1 <= n <= 30 {
      assert Table[n - 1].number == n;
    } else if 95 <= n <= 99 {
      assert Table[n - 65].number == n;
    }
  }

  // ---------------------------------------------------------------------------
  // Search

  /** A name matches when its Arabic contains the query as typed, or its
      lowercased transliteration, translation or meaning contains the
      lowercased query. */
  function Matches(name: AsmaName, query: string): (b: bool)
    ensures query == "" ==> b
    ensures Includes(name.arabic, query) ==> b
  {
    IncludesEmpty(name.arabic);
    || Includes(name.arabic, query)
    || Includes(ToLowerCase(name.transliteration), ToLowerCase(query))
    || Includes(ToLowerCase(name.translation), ToLowerCase(query))
    || Includes(ToLowerCase(name.meaning), ToLowerCase(query))
  }

  /** The matching names, in order. */
  function Search(names: seq<AsmaName>, query: string): (r: seq<AsmaName>)
    ensures |r| <= |names|
    ensures forall x :: x in r <==> x in names && Matches(x, query)
    ensures IncreasingNumbers(names) ==> IncreasingNumbers(r)
  {
    if |names| == 0 then []
    else
      var rest := Search(names[1..], query);
      assert IncreasingNumbers(names) ==> forall x :: x in names[1..] ==> names[0].number < x.number;
      if Matches(names[0], query) then [names[0]] + rest else rest
  }

  /** `searchNames`: the names that match, in table order. */
  function SearchNames(favorites: seq<int>, query: string): (r: seq<AsmaName>)
    ensures IncreasingNumbers(r)
    ensures forall x :: x in r <==> x in AllNames(favorites) && Matches(x, query)
  {
    AllNamesIncreasing(favorites);
    Search(AllNames(favorites), query)
  }

  /** A search that every name matches returns the list itself. */
  lemma {:induction false} SearchKeepsAll(names: seq<AsmaName>, query: string)
    requires forall x :: x in names ==> Matches(x, query)
    ensures Search(names, query) == names
  {
    if |names| > 0 {
      SearchKeepsAll(names[1..], query);
    }
  }

  /** The empty query keeps every name. */
  lemma EmptyQueryKeepsAll(favorites: seq<int>)
    ensures SearchNames(favorites, "") == AllNames(favorites)
  {
    forall x | x in AllNames(favorites)
      ensures Matches(x, "")
    {
      IncludesEmpty(x.arabic);
    }
    SearchKeepsAll(AllNames(favorites), "");
  }

  // ---------------------------------------------------------------------------
  // Favourites

  /** The favourite names, in order. */
  function FavoritesOf(names: seq<AsmaName>): (r: seq<AsmaName>)
    ensures forall x :: x in r <==> x in names && x.isFavorite
    ensures IncreasingNumbers(names) ==> IncreasingNumbers(r)
  {
    if |names| == 0 then []
    else
      var rest := FavoritesOf(names[1..]);
      assert IncreasingNumbers(names) ==> forall x :: x in names[1..] ==> names[0].number < x.number;
      if names[0].isFavorite then [names[0]] + rest else rest
  }

  /** `getFavoriteNames`: the names flagged as favourites, in table order. */
  function FavoriteNames(favorites: seq<int>): (r: seq<AsmaName>)
    ensures IncreasingNumbers(r)
    ensures forall x :: x in r <==> x in AllNames(favorites) && x.isFavorite
  {
    AllNamesIncreasing(favorites);
    FavoritesOf(AllNames(favorites))
  }

  /** The favourite names are exactly the table rows whose number is a
      favourite; a favourite number with no row in the table shows nothing. */
  lemma FavoriteNamesAreTheFavoriteRows(favorites: seq<int>, k: int)
    requires 0 <= k < |Table|
    ensures Flagged(Table[k], true) in FavoriteNames(favorites) <==> Table[k].number in favorites
  {
    var names := AllNames(favorites);
    assert names[k] == Flagged(Table[k], Table[k].number in favorites);
    if Flagged(Table[k], true) in FavoriteNames(favorites) {
      assert Flagged(Table[k], true) in names;
      var j :| 0 <= j < |names| && names[j] == Flagged(Table[k], true);
      TableNumbers();
      assert Table[j].number == Table[k].number;
    }
  }

  /** The list holds no number twice. */
  predicate NoDuplicates(favorites: seq<int>)
  {
    forall i, j :: 0 <= i < j < |favorites| ==> favorites[i] != favorites[j]
  }

  /** `indexOf`: the first position holding n, or -1. */
  function IndexOfNumber(favorites: seq<int>, n: int): (r: int)
    ensures -1 <= r < |favorites|
    ensures r == -1 <==> n !in favorites
    ensures r >= 0 ==> favorites[r] == n && n !in favorites[..r]
  {
    if |favorites| == 0 then -1
    else if favorites[0] == n then 0
    else
      var r := IndexOfNumber(favorites[1..], n);
      if r == -1 then -1
      else
        assert favorites[..r + 1] == [favorites[0]] + favorites[1..][..r];
        r + 1
  }

  /** `toggleFavorite`'s change: the first occurrence is spliced out when
      there is one, otherwise the number is pushed at the end. */
  function Toggle(favorites: seq<int>, n: int): (r: seq<int>)
    ensures n !in favorites ==> r == favorites + [n]
    ensures n in favorites ==> |r| == |favorites| - 1
    ensures n in favorites ==> exists i :: 0 <= i < |favorites| && favorites[i] == n && n !in favorites[..i]
                                          && r == favorites[..i] + favorites[i + 1..]
  {
    var i := IndexOfNumber(favorites, n);
    if i > -1 then favorites[..i] + favorites[i + 1..] else favorites + [n]
  }

  /** On a list without repeats the toggle flips n's membership, keeps every
      other number's, and keeps the list free of repeats. */
  lemma ToggleFlips(favorites: seq<int>, n: int)
    requires NoDuplicates(favorites)
    ensures NoDuplicates(Toggle(favorites, n))
    ensures n in Toggle(favorites, n) <==> n !in favorites
    ensures forall m :: m != n ==> (m in Toggle(favorites, n) <==> m in favorites)
  {
    var i := IndexOfNumber(favorites, n);
    if i > -1 {
      var r := favorites[..i] + favorites[i + 1..];
      assert forall k :: 0 <= k < |r| ==> r[k] == (if k < i then favorites[k] else favorites[k + 1]);
      forall m | m in favorites && m != n
        ensures m in r
      {
        var k :| 0 <= k < |favorites| && favorites[k] == m;
        if k < i { assert r[k] == m; } else { assert k != i && r[k - 1] == m; }
      }
    }
  }

  /** Toggling twice restores the list when n was absent, and restores the
      same numbers (possibly reordered) when it was present. */
  lemma ToggleTwice(favorites: seq<int>, n: int)
    requires NoDuplicates(favorites)
    ensures n !in favorites ==> Toggle(Toggle(favorites, n), n) == favorites
    ensures forall m :: m in Toggle(Toggle(favorites, n), n) <==> m in favorites
  {
    ToggleFlips(favorites, n);
    ToggleFlips(Toggle(favorites, n), n);
    if n !in favorites {
      var once := favorites + [n];
      assert IndexOfNumber(once, n) == |favorites| by {
        assert once[..|favorites|] == favorites;
      }
      assert once[..|favorites|] == favorites;
    }
  }

  // ---------------------------------------------------------------------------
  // Recitations and statistics

  /** The number of log entries made on the given day. */
  function CountOn(log: seq<Recitation>, day: string): (n: nat)
    ensures n <= |log|
    ensures n == 0 <==> forall k :: 0 <= k < |log| ==> log[k].date != day
    ensures n == |log| <==> forall k :: 0 <= k < |log| ==> log[k].date == day
  {
    if |log| == 0 then 0 else (if log[0].date == day then 1 else 0) + CountOn(log[1..], day)
  }

  lemma {:induction false} CountOnAppend(log: seq<Recitation>, e: Recitation, day: string)
    ensures CountOn(log + [e], day) == CountOn(log, day) + (if e.date == day then 1 else 0)
  {
    if |log| > 0 {
      assert (log + [e])[1..] == log[1..] + [e];
      CountOnAppend(log[1..], e, day);
    } else {
      assert log + [e] == [e];
    }
  }

  /** `getStats` counters: the log length, the number of favourites, one
      completed session per full 99 recitations, and today's entries. */
  function Stats(log: seq<Recitation>, favorites: seq<int>, today: string): (st: AsmaStats)
    ensures st.totalRecitations == |log| && st.favoriteCount == |favorites|
    ensures 0 <= st.completedSessions * 99 <= st.totalRecitations < (st.completedSessions + 1) * 99
    ensures 0 <= st.todayRecitations <= st.totalRecitations
  {
    AsmaStats(|log|, |favorites|, |log| / 99, CountOn(log, today))
  }

  /** Recording a recitation today adds one to the total and to today's
      count, and completes a session exactly on every 99th recitation. */
  lemma RecitationCounts(log: seq<Recitation>, favorites: seq<int>, n: int, today: string, nowIso: string)
    ensures var before := Stats(log, favorites, today);
            var after := Stats(log + [Recitation(n, today, nowIso)], favorites, today);
            && after.totalRecitations == before.totalRecitations + 1
            && after.todayRecitations == before.todayRecitations + 1
            && after.favoriteCount == before.favoriteCount
            && after.completedSessions == before.completedSessions + (if (|log| + 1) % 99 == 0 then 1 else 0)
  {
    CountOnAppend(log, Recitation(n, today, nowIso), today);
  }

  // ---------------------------------------------------------------------------
  // Name of the day

  /** `getNameOfTheDay`: the row at (dayOfYear - 1) mod 35 (JavaScript `%`)
      with its favourite flag; a negative position has no row, and the
      first row is returned unflagged. */
  function NameOfTheDay(favorites: seq<int>, dayOfYear: int): (r: AsmaName)
    ensures dayOfYear >= 1 ==> r == AllNames(favorites)[(dayOfYear - 1) % |Table|]
    ensures r.number in (set k | 0 <= k < |Table| :: Table[k].number)
  {
    TableNumbers();
    var i := IntRem(dayOfYear - 1, |Table|);
    if 0 <= i then
      Flagged(Table[i], Table[i].number in favorites)
    else
      var first := Table[0];
      AsmaName(if first.number != 0 then first.number else 1,
               first.arabic, first.transliteration, first.translation, first.meaning, first.benefit, false)
  }

  /** The name of the day repeats every 35 days. */
  lemma NameOfTheDayCycles(favorites: seq<int>, dayOfYear: int)
    requires dayOfYear >= 1
    ensures NameOfTheDay(favorites, dayOfYear + |Table|) == NameOfTheDay(favorites, dayOfYear)
  {
    TableNumbers();
    assert (dayOfYear + 35 - 1) % 35 == (dayOfYear - 1) % 35;
  }

  // ---------------------------------------------------------------------------
  // The service

  class AsmaUlHusnaService {
    /** The favourite numbers, in the order they were added. */
    var favorites: seq<int>
    /** The recitation log, oldest first. */
    var recitations: seq<Recitation>

    constructor()
      ensures favorites == [] && recitations == []
    {
      favorites := [];
      recitations := [];
    }

    /** `toggleFavorite`: splices out the first occurrence of the number, or
        pushes it when absent. */
    method ToggleFavorite(n: int)
      modifies this
      ensures favorites == Toggle(old(favorites), n)
      ensures recitations == old(recitations)
    {
      var index := IndexOfNumber(favorites, n);
      if index > -1 {
        favorites := favorites[..index] + favorites[index + 1..];
      } else {
        favorites := favorites + [n];
      }
    }

    /** `recordRecitation`: appends one entry for the number, stamped with the
        day and the moment; earlier entries stay as they were. */
    method RecordRecitation(n: int, today: string, nowIso: string)
      modifies this
      ensures recitations == old(recitations) + [Recitation(n, today, nowIso)]
      ensures favorites == old(favorites)
    {
      recitations := recitations + [Recitation(n, today, nowIso)];
    }

    /** `getStats` counters over the stored log and favourites. */
    function GetStats(today: string): (st: AsmaStats)
      reads this
      ensures st == Stats(recitations, favorites, today)
    {
      Stats(recitations, favorites, today)
    }
  }
}
