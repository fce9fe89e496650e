/** How one source row is read: the key it is filed under, and the metric cells it contributes. */
module SourceRowLaws {
  import opened Wrappers
  import opened InsertionMap
  import opened Cells
  import opened Calendar
  import opened SilverTable
  import opened SilverTableLaws

  /** The date that is read from the row's date cell. */
  ghost predicate DatedOn(p: Parsing, line: Line, d: Date) {
    exists cell :: line.row.Get(line.asset.dateColumn) == Some(cell) && cell != Null && p.dateOf(cell) == Some(d)
  }

  /** The cell of the row's site column, which may be missing. */
  function SiteCell(line: Line): Cell {
    if line.asset.siteColumn in line.row.at then line.row.at[line.asset.siteColumn] else Null
  }

  /**
   A row is filed under the client of its file, a site code that is not empty, and its own day; in a monthly
   file under the first day of the month. Without a date or a site code it is filed nowhere.
   */
  lemma FilesIff(p: Parsing, line: Line, monthly: bool, k: DayKey)
    ensures Files(p, line, monthly, k)
        <==> line.asset.monthly == monthly && k.client == line.asset.client && k.site == p.siteOf(SiteCell(line)) && k.site != ""
             && if monthly then k.date.day == 1 && exists d :: DatedOn(p, line, d) && d.year == k.date.year && d.month == k.date.month
                else DatedOn(p, line, k.date)
  {
    var parsed := ParsedDate(p, line.asset, line.row);
    if parsed.Some? {
      assert DatedOn(p, line, parsed.value);
    }
  }

  /** The columns that date and place a row. */
  ghost predicate IsKey(a: Asset, column: string) {
    column in {a.dateColumn, a.siteColumn} || a.nameColumn == Some(column)
  }

  /** The column contributes to this metric. */
  ghost predicate Gives(p: Parsing, a: Asset, column: string, x: string) {
    !IsKey(a, column) && x == p.normalize(a.dataset) + "__" + p.normalize(column)
  }

  /** The last of the first `n` entries that contributes to a metric decides its cell. */
  lemma {:induction false} LastColumnDecides(p: Parsing, a: Asset, entries: seq<(string, Cell)>, n: nat, x: string)
    requires n <= |entries|
    ensures x in Metrics(p, a, entries, n) <==> exists i :: 0 <= i < n && Gives(p, a, entries[i].0, x)
    ensures x in Metrics(p, a, entries, n) ==>
              exists i :: 0 <= i < n && Gives(p, a, entries[i].0, x) && Metrics(p, a, entries, n)[x] == p.coerce(entries[i].1)
                          && forall j :: i < j < n ==> !Gives(p, a, entries[j].0, x)
  {
    if n > 0 {
      LastColumnDecides(p, a, entries, n - 1, x);
      assert IsKeyColumn(a, entries[n - 1].0) <==> IsKey(a, entries[n - 1].0);
    }
  }

  /**
   A row contributes a metric cell for each column that is not a key column, under the normalized names of
   dataset and column; of columns with one name the last decides.
   */
  lemma MetricsAre(p: Parsing, a: Asset, row: SourceRow, x: string)
    ensures x in MetricsOf(p, a, row) <==> exists i :: 0 <= i < |row.Entries()| && Gives(p, a, row.Entries()[i].0, x)
    ensures x in MetricsOf(p, a, row) ==>
              exists i :: 0 <= i < |row.Entries()| && Gives(p, a, row.Entries()[i].0, x) && MetricsOf(p, a, row)[x] == p.coerce(row.Entries()[i].1)
                          && forall j :: i < j < |row.Entries()| ==> !Gives(p, a, row.Entries()[j].0, x)
  {
    LastColumnDecides(p, a, row.Entries(), |row.Entries()|, x);
  }

  /** The name a row gives to its site: that of its name column, if the file has one. */
  lemma NamesAre(p: Parsing, a: Asset, row: SourceRow)
    ensures a.nameColumn == None ==> SiteName(p, a, row) == ""
    ensures forall column :: a.nameColumn == Some(column) ==>
              SiteName(p, a, row) == p.nameOf(if column in row.at then row.at[column] else Null)
  {
  }
}
