/**
 The silver table as the quality pass receives it: with ISO date texts it is already in processing order,
 and earlier days have smaller texts. These are the provisos of the no-lookahead law.
 */
module DenseOrder {
  import opened Wrappers
  import opened StableSort
  import opened InsertionMap
  import opened TextOrder
  import opened Cells
  import opened Calendar
  import opened SilverTable
  import opened SilverTableLaws
  import SilverQuality
  import NoLookahead

  /*** ISO texts ***/

  function Digit(n: int): char
    requires 0 <= n <= 9
  {
    (48 + n) as char
  }

  /** The last `width` decimal digits of a number. */
  function Padded(n: nat, width: nat): (text: string)
    ensures |text| == width
    decreases width
  {
    if width == 0 then "" else Padded(n / 10, width - 1) + [Digit(n % 10)]
  }

  /** `date.isoformat()` */
  function Iso(d: Date): string {
    Padded(d.year, 4) + ("-" + (Padded(d.month, 2) + ("-" + Padded(d.day, 2))))
  }

  function Power(width: nat): nat {
    if width == 0 then 1 else 10 * Power(width - 1)
  }

  lemma {:induction false} PaddedLess(a: nat, b: nat, width: nat)
    requires a < b < Power(width)
    ensures TextLess(Padded(a, width), Padded(b, width))
    decreases width
  {
    if a / 10 < b / 10 {
      PaddedLess(a / 10, b / 10, width - 1);
      LessByPrefix(Padded(a / 10, width - 1), Padded(b / 10, width - 1), [Digit(a % 10)], [Digit(b % 10)]);
    } else {
      LessAfterPrefix(Padded(a / 10, width - 1), [Digit(a % 10)], [Digit(b % 10)]);
    }
  }

  lemma PowersOfTen()
    ensures Power(2) == 100 && Power(4) == 10000
  {
    assert Power(3) == 1000;
  }

  lemma IsoLess(a: Date, b: Date)
    requires Before(a, b)
    ensures TextLess(Iso(a), Iso(b))
  {
    PowersOfTen();
    var restA, restB := "-" + (Padded(a.month, 2) + ("-" + Padded(a.day, 2))), "-" + (Padded(b.month, 2) + ("-" + Padded(b.day, 2)));
    if a.year < b.year {
      PaddedLess(a.year, b.year, 4);
      LessByPrefix(Padded(a.year, 4), Padded(b.year, 4), restA, restB);
    } else {
      if a.month < b.month {
        PaddedLess(a.month, b.month, 2);
        LessByPrefix(Padded(a.month, 2), Padded(b.month, 2), "-" + Padded(a.day, 2), "-" + Padded(b.day, 2));
      } else {
        PaddedLess(a.day, b.day, 2);
        LessAfterPrefix("-", Padded(a.day, 2), Padded(b.day, 2));
        LessAfterPrefix(Padded(a.month, 2), "-" + Padded(a.day, 2), "-" + Padded(b.day, 2));
      }
      LessAfterPrefix("-", Padded(a.month, 2) + ("-" + Padded(a.day, 2)), Padded(b.month, 2) + ("-" + Padded(b.day, 2)));
      LessAfterPrefix(Padded(a.year, 4), restA, restB);
    }
  }

  /** ISO texts sort as the dates do. */
  lemma IsoOrderIsDateOrder(a: Date, b: Date)
    ensures TextLe(Iso(a), Iso(b)) <==> AtMost(a, b)
  {
    if a == b {
      TextLeReflexive(Iso(a));
    } else if Before(a, b) {
      IsoLess(a, b);
    } else {
      IsoLess(b, a);
      LessIsNotGe(Iso(b), Iso(a));
    }
  }

  /*** The table ***/

  /** The text functions agree with each other: texts stand for themselves, and a date is read back from its ISO text. */
  ghost predicate StandardTexts(lib: Library, p: Parsing) {
    && (forall s :: lib.textOf(Text(s)) == s)
    && (forall d: Date :: p.iso(d) == Iso(d))
    && (forall d: Date :: lib.dayOf(Iso(d)).Some?)
    && (forall d: Date, e: Date :: lib.dayOf(Iso(d)).value < lib.dayOf(Iso(e)).value ==> Before(d, e))
  }

  lemma KeyCellsRead(lib: Library, p: Parsing, row: Row, key: DayKey)
    requires StandardTexts(lib, p)
    requires Get(row, "client_slug") == Text(key.client) && Get(row, "site_code") == Text(key.site) && Get(row, "date") == Text(p.iso(key.date))
    ensures SiteKeyOf(lib)(row) == (key.client, key.site)
    ensures DateText(lib, row) == Iso(key.date) && DayOf(lib, row) == lib.dayOf(Iso(key.date))
  {
  }

  lemma RowsCarryTheirKeys(lib: Library, p: Parsing, lines: seq<Line>, i: nat)
    requires Materialized(p, IngestAll(p, EMPTY_TABLE, lines)).Some? && StandardTexts(lib, p)
    requires i < |Materialized(p, IngestAll(p, EMPTY_TABLE, lines)).value|
    ensures DenseKeys(IngestAll(p, EMPTY_TABLE, lines)).Some? && i < |DenseKeys(IngestAll(p, EMPTY_TABLE, lines)).value|
    ensures var row, key := Materialized(p, IngestAll(p, EMPTY_TABLE, lines)).value[i], DenseKeys(IngestAll(p, EMPTY_TABLE, lines)).value[i];
            && SiteKeyOf(lib)(row) == (key.client, key.site)
            && DateText(lib, row) == Iso(key.date) && DayOf(lib, row) == lib.dayOf(Iso(key.date))
  {
    SilverTableIsDense(p, lines, i, "");
    KeyCellsRead(lib, p, Materialized(p, IngestAll(p, EMPTY_TABLE, lines)).value[i], DenseKeys(IngestAll(p, EMPTY_TABLE, lines)).value[i]);
  }

  lemma KeyOrderIsRowOrder(lib: Library, a: Row, b: Row, ka: DayKey, kb: DayKey)
    requires SiteKeyOf(lib)(a) == (ka.client, ka.site) && SiteKeyOf(lib)(b) == (kb.client, kb.site)
    requires DateText(lib, a) == Iso(ka.date) && DateText(lib, b) == Iso(kb.date) && ComesBefore(ka, kb)
    ensures SilverQuality.RowOrder(lib, a, b)
  {
    IsoOrderIsDateOrder(ka.date, kb.date);
  }

  /** The dense table meets the provisos of the no-lookahead law, and sorting it again changes nothing. */
  lemma DenseTableIsInOrder(lib: Library, p: Parsing, lines: seq<Line>)
    requires Materialized(p, IngestAll(p, EMPTY_TABLE, lines)).Some? && StandardTexts(lib, p)
    ensures var rows := Materialized(p, IngestAll(p, EMPTY_TABLE, lines)).value;
            SilverQuality.SortedRows(lib, rows) == rows && NoLookahead.DatesInOrder(lib, rows)
  {
    var t := IngestAll(p, EMPTY_TABLE, lines);
    var rows, keys := Materialized(p, t).value, DenseKeys(t).value;
    DenseKeysAreTheSpannedDays(p, lines);
    RowsFollowKeys(p, t, keys);
    forall i, j | 0 <= i < j < |rows| ensures SilverQuality.ByRowOrder(lib)(rows[i], rows[j]) {
      RowsCarryTheirKeys(lib, p, lines, i);
      RowsCarryTheirKeys(lib, p, lines, j);
      assert ComesBefore(keys[i], keys[j]);
      KeyOrderIsRowOrder(lib, rows[i], rows[j], keys[i], keys[j]);
    }
    SortOfSorted(rows, SilverQuality.ByRowOrder(lib));
    forall i, j | 0 <= i < |rows| && 0 <= j < |rows| && DayOf(lib, rows[i]).Some? && DayOf(lib, rows[j]).Some?
                  && DayOf(lib, rows[i]).value < DayOf(lib, rows[j]).value
      ensures TextLess(DateText(lib, rows[i]), DateText(lib, rows[j]))
    {
      RowsCarryTheirKeys(lib, p, lines, i);
      RowsCarryTheirKeys(lib, p, lines, j);
      IsoLess(keys[i].date, keys[j].date);
    }
  }
}
