/** What a gap is filled with, in terms of the positions of the earlier rows it is computed from. */
module ImputationLaws {
  import opened Wrappers
  import opened InsertionMap
  import opened Cells
  import opened SilverQuality
  import opened ClampLaws
  import opened EarlierRows

  /*** The three levels of the hierarchy ***/

  /** The day a row is dated: that of its date cell, if it holds a text that can be read as one. */
  function Dated(lib: Library, row: Row): Option<int> {
    if "date" in row && row["date"].Text? then lib.dayOf(row["date"].s) else None
  }

  /** Row `j` is dated one to 56 days before row `i`. */
  predicate DaysBefore(lib: Library, rows: seq<Row>, i: nat, j: nat) {
    && i < |rows| && j < |rows| && Dated(lib, rows[i]).Some? && Dated(lib, rows[j]).Some?
    && 1 <= Dated(lib, rows[i]).value - Dated(lib, rows[j]).value <= 56
  }

  /** A whole number of weeks before. */
  predicate WeeksBefore(lib: Library, rows: seq<Row>, i: nat, j: nat) {
    DaysBefore(lib, rows, i, j) && (Dated(lib, rows[i]).value - Dated(lib, rows[j]).value) % 7 == 0
  }

  predicate SameClient(lib: Library, rows: seq<Row>, i: nat, j: nat) {
    i < |rows| && j < |rows| && lib.textOf(Get(rows[i], "client_slug")) == lib.textOf(Get(rows[j], "client_slug"))
  }

  predicate SameSite(lib: Library, rows: seq<Row>, i: nat, j: nat) {
    SameClient(lib, rows, i, j) && lib.textOf(Get(rows[i], "site_code")) == lib.textOf(Get(rows[j], "site_code"))
  }

  function SameWeekdayOfSite(lib: Library, rows: seq<Row>, i: nat): nat -> bool {
    (j: nat) => SameSite(lib, rows, i, j) && WeeksBefore(lib, rows, i, j)
  }

  function WindowOfSite(lib: Library, rows: seq<Row>, i: nat): nat -> bool {
    (j: nat) => SameSite(lib, rows, i, j) && DaysBefore(lib, rows, i, j)
  }

  function WindowOfClient(lib: Library, rows: seq<Row>, i: nat): nat -> bool {
    (j: nat) => SameClient(lib, rows, i, j) && DaysBefore(lib, rows, i, j)
  }

  /** The earlier rows at each level of the hierarchy. */
  ghost predicate Levels(lib: Library, rows: seq<Row>, i: nat, weekday: seq<nat>, site: seq<nat>, client: seq<nat>) {
    && i < |rows| && Picks(weekday, i, SameWeekdayOfSite(lib, rows, i))
    && Picks(site, i, WindowOfSite(lib, rows, i)) && Picks(client, i, WindowOfClient(lib, rows, i))
    && InRows(weekday, i) && InRows(site, i) && InRows(client, i)
  }

  lemma LevelsExist(lib: Library, rows: seq<Row>, i: nat) returns (weekday: seq<nat>, site: seq<nat>, client: seq<nat>)
    requires i < |rows|
    ensures Levels(lib, rows, i, weekday, site, client)
  {
    weekday := PicksExist(i, SameWeekdayOfSite(lib, rows, i));
    site := PicksExist(i, WindowOfSite(lib, rows, i));
    client := PicksExist(i, WindowOfClient(lib, rows, i));
    PicksBelow(weekday, i, SameWeekdayOfSite(lib, rows, i));
    PicksBelow(site, i, WindowOfSite(lib, rows, i));
    PicksBelow(client, i, WindowOfClient(lib, rows, i));
  }

  lemma WeekdaysAgreeIff(d: int, today: int)
    ensures Weekday(d) == Weekday(today) <==> (today - d) % 7 == 0
  {
    var a, b := (d + 6) / 7, (today + 6) / 7;
    assert d + 6 == 7 * a + Weekday(d) && today + 6 == 7 * b + Weekday(today);
    assert today - d == 7 * (b - a) + (Weekday(today) - Weekday(d));
  }

  lemma WindowIsDaysBefore(lib: Library, rows: seq<Row>, i: nat, j: nat)
    requires i < |rows| && j < |rows| && DayOf(lib, rows[i]).Some?
    ensures InWindow(lib, rows[j], DayOf(lib, rows[i]).value, false, 56) <==> DaysBefore(lib, rows, i, j)
    ensures InWindow(lib, rows[j], DayOf(lib, rows[i]).value, true, 56) <==> WeeksBefore(lib, rows, i, j)
  {
    if DayOf(lib, rows[j]).Some? {
      WeekdaysAgreeIff(DayOf(lib, rows[j]).value, DayOf(lib, rows[i]).value);
    }
  }

  /** The site's rows before this one. */
  function EarlierOfSite(lib: Library, rows: seq<Row>, i: nat): nat -> bool {
    (j: nat) => SameSite(lib, rows, i, j)
  }

  function EarlierOfClient(lib: Library, rows: seq<Row>, i: nat): nat -> bool {
    (j: nat) => SameClient(lib, rows, i, j)
  }

  lemma SitePastListed(lib: Library, rows: seq<Row>, i: nat, ps: seq<nat>)
    requires i < |rows| && Picks(ps, i, EarlierOfSite(lib, rows, i))
    ensures InRows(ps, |rows|) && SitePast(lib, rows, i, GroupsOf(lib, rows)) == RowsAt(rows, ps)
  {
    SiteGroupLists(lib, rows, SiteKeyOf(lib)(rows[i]));
    PastIsListed(rows, GroupsOf(lib, rows).sites.Get(SiteKeyOf(lib)(rows[i])).GetOr([]), i, ps, EarlierOfSite(lib, rows, i));
  }

  lemma ClientPastListed(lib: Library, rows: seq<Row>, i: nat, ps: seq<nat>)
    requires i < |rows| && Picks(ps, i, EarlierOfClient(lib, rows, i))
    ensures InRows(ps, |rows|) && ClientPast(lib, rows, i, GroupsOf(lib, rows)) == RowsAt(rows, ps)
  {
    ClientGroupLists(lib, rows, ClientOf(lib)(rows[i]));
    PastIsListed(rows, GroupsOf(lib, rows).clients.Get(ClientOf(lib)(rows[i])).GetOr([]), i, ps, EarlierOfClient(lib, rows, i));
  }

  /** A history over the rows of a list is the values at those of them that lie in the window. */
  lemma HistoryIsListed(lib: Library, rows: seq<Row>, i: nat, all: seq<nat>, mate: nat -> bool, ps: seq<nat>, p: nat -> bool,
                        column: string, sameDow: bool)
    requires i < |rows| && DayOf(lib, rows[i]).Some? && Picks(all, i, mate) && InRows(all, |rows|) && Picks(ps, i, p)
    requires forall j: nat :: j < i ==> (p(j) <==> mate(j) && (if sameDow then WeeksBefore(lib, rows, i, j) else DaysBefore(lib, rows, i, j)))
    ensures InRows(ps, |rows|)
    ensures History(lib, RowsAt(rows, all), column, DayOf(lib, rows[i]).value, sameDow, 56) == ValuesAt(lib, rows, column, ps)
  {
    var today := DayOf(lib, rows[i]).value;
    var q := InWindowAt(lib, rows, today, sameDow, 56);
    forall j: nat ensures (j in all && q(j)) <==> (j < i && p(j)) {
      if j < i {
        WindowIsDaysBefore(lib, rows, i, j);
      }
    }
    HistoryAt(lib, rows, all, column, today, sameDow, 56);
    KeptIsPicked(all, q, ps, i, p);
  }

  /** The first of three lists of values that is not empty decides. */
  function FirstMedian(lib: Library, weekday: seq<real>, site: seq<real>, client: seq<real>): Option<real> {
    if weekday != [] then Some(lib.median(weekday))
    else if site != [] then Some(lib.median(site))
    else if client != [] then Some(lib.median(client))
    else None
  }

  lemma NothingPicked(ps: seq<nat>, n: nat, p: nat -> bool)
    requires Picks(ps, n, p) && forall j: nat :: !p(j)
    ensures ps == []
  {
    SameMembersSameList(ps, []);
  }

  lemma UndatedHasNoLevels(lib: Library, rows: seq<Row>, i: nat, weekday: seq<nat>, site: seq<nat>, client: seq<nat>)
    requires Levels(lib, rows, i, weekday, site, client) && DayOf(lib, rows[i]).None?
    ensures weekday == [] && site == [] && client == []
  {
    NothingPicked(weekday, i, SameWeekdayOfSite(lib, rows, i));
    NothingPicked(site, i, WindowOfSite(lib, rows, i));
    NothingPicked(client, i, WindowOfClient(lib, rows, i));
  }

  lemma MedianOfLevels(lib: Library, rows: seq<Row>, i: nat, column: string, weekday: seq<nat>, site: seq<nat>, client: seq<nat>)
    requires Levels(lib, rows, i, weekday, site, client)
    ensures HierarchicalMedian(lib, rows[i], SitePast(lib, rows, i, GroupsOf(lib, rows)), ClientPast(lib, rows, i, GroupsOf(lib, rows)), column)
         == FirstMedian(lib, ValuesAt(lib, rows, column, weekday), ValuesAt(lib, rows, column, site), ValuesAt(lib, rows, column, client))
  {
    if DayOf(lib, rows[i]).None? {
      UndatedHasNoLevels(lib, rows, i, weekday, site, client);
    } else {
      var mates := PicksExist(i, EarlierOfSite(lib, rows, i));
      var clientMates := PicksExist(i, EarlierOfClient(lib, rows, i));
      SitePastListed(lib, rows, i, mates);
      ClientPastListed(lib, rows, i, clientMates);
      HistoryIsListed(lib, rows, i, mates, EarlierOfSite(lib, rows, i), weekday, SameWeekdayOfSite(lib, rows, i), column, true);
      HistoryIsListed(lib, rows, i, mates, EarlierOfSite(lib, rows, i), site, WindowOfSite(lib, rows, i), column, false);
      HistoryIsListed(lib, rows, i, clientMates, EarlierOfClient(lib, rows, i), client, WindowOfClient(lib, rows, i), column, false);
    }
  }
}
