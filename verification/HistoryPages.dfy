/**
  Pages of a station's history, newest page first, and the walk of a client that asks for the next
  page with the oldest date it has seen, while other clients keep writing.
 */
module HistoryPages {
  import opened Common
  import opened HistoryTable

  /** Where a page ends: nowhere, strictly before a date, or at a text that is not a date. */
  datatype Cursor = Newest | Before(date: Date) | Malformed

  datatype Stored = Stored(date: Date, row: Row)
  datatype Page = Page(rows: seq<Stored>, hasMore: bool)

  predicate Reaches(cursor: Cursor, date: Date) {
    cursor.Before? ==> date < cursor.date
  }

  /** The dates of the station's rows that the cursor reaches. */
  function DatesBelow(t: Table, uuid: Uuid, cursor: Cursor): set<Date> {
    set k | k in t && k.uuid == uuid && Reaches(cursor, k.date) :: k.date
  }

  lemma BelowHasRow(t: Table, uuid: Uuid, cursor: Cursor, date: Date)
    ensures date in DatesBelow(t, uuid, cursor) <==> Key(uuid, date) in t && Reaches(cursor, date)
  {
    if Key(uuid, date) in t && Reaches(cursor, date) {
      assert Key(uuid, date).date in DatesBelow(t, uuid, cursor);
    }
  }

  ghost predicate Ascending(rows: seq<Stored>) {
    forall i, j | 0 <= i < j < |rows| :: rows[i].date < rows[j].date
  }

  function DatesOf(rows: seq<Stored>): set<Date> {
    set i | 0 <= i < |rows| :: rows[i].date
  }

  ghost predicate ComeFrom(rows: seq<Stored>, t: Table, uuid: Uuid) {
    forall i | 0 <= i < |rows| :: Key(uuid, rows[i].date) in t && rows[i].row == t[Key(uuid, rows[i].date)]
  }

  /** Rows of the station, oldest first, exactly those on the given dates, each once. */
  ghost predicate AreRowsOn(rows: seq<Stored>, t: Table, uuid: Uuid, dates: set<Date>) {
    Ascending(rows) && ComeFrom(rows, t, uuid) && DatesOf(rows) == dates
  }

  ghost predicate AreNewest(dates: set<Date>, all: set<Date>) {
    dates <= all && forall newer, older | newer in dates && older in all :: older in dates || older < newer
  }

  /** `page` holds the newest `size` rows that the cursor reaches, and says whether older ones remain. */
  ghost predicate IsPage(page: Page, t: Table, uuid: Uuid, cursor: Cursor, size: nat) {
    var below := DatesBelow(t, uuid, cursor);
    && page.hasMore == (|below| > size)
    && |page.rows| == (if |below| > size then size else |below|)
    && exists dates :: AreRowsOn(page.rows, t, uuid, dates) && AreNewest(dates, below)
  }

  /** From the cursor on downwards both tables hold the same rows of the station. */
  ghost predicate SameBelow(t: Table, u: Table, uuid: Uuid, cursor: Cursor) {
    forall date | Reaches(cursor, date) ::
      && (Key(uuid, date) in t <==> Key(uuid, date) in u)
      && (Key(uuid, date) in t ==> t[Key(uuid, date)] == u[Key(uuid, date)])
  }

  /** Rows that are put on dates at or after the cursor do not disturb what lies below it. */
  lemma PutAboveCursor(t: Table, k: Key, row: Row, uuid: Uuid, cursor: Cursor)
    requires k.uuid != uuid || !Reaches(cursor, k.date)
    ensures SameBelow(t, PutRow(t, k, row), uuid, cursor)
  {
  }

  lemma SameBelowAcross(t: Table, u: Table, v: Table, uuid: Uuid, cursor: Cursor)
    requires SameBelow(t, u, uuid, cursor) && SameBelow(u, v, uuid, cursor)
    ensures SameBelow(t, v, uuid, cursor)
  {
  }

  datatype Put = Put(key: Key, row: Row)

  function PutAll(t: Table, puts: seq<Put>): Table
    decreases |puts|
  {
    if puts == [] then t else PutAll(PutRow(t, puts[0].key, puts[0].row), puts[1..])
  }

  /** Nor does any number of them. */
  lemma {:induction false} PutsAboveCursor(t: Table, puts: seq<Put>, uuid: Uuid, cursor: Cursor)
    requires forall put | put in puts :: put.key.uuid != uuid || !Reaches(cursor, put.key.date)
    ensures SameBelow(t, PutAll(t, puts), uuid, cursor)
    decreases |puts|
  {
    if puts != [] {
      var next := PutRow(t, puts[0].key, puts[0].row);
      PutAboveCursor(t, puts[0].key, puts[0].row, uuid, cursor);
      PutsAboveCursor(next, puts[1..], uuid, cursor);
      SameBelowAcross(t, next, PutAll(t, puts), uuid, cursor);
    }
  }

  /**
    A client's walk: each page answers the cursor left by the one before it, on a table that may
    have changed in the meantime, but not below that cursor. It stops at the first page that says
    nothing older remains.
   */
  ghost predicate IsWalk(tables: seq<Table>, pages: seq<Page>, uuid: Uuid, cursor: Cursor, size: nat)
    decreases |pages|
  {
    && |tables| == |pages| > 0
    && IsPage(pages[0], tables[0], uuid, cursor, size)
    && (|pages| == 1 || (
          && pages[0].hasMore && |pages[0].rows| > 0
          && var next := Before(pages[0].rows[0].date);
             && SameBelow(tables[0], tables[1], uuid, next)
             && IsWalk(tables[1..], pages[1..], uuid, next, size)))
  }

  /** Everything the client has seen, oldest first. */
  ghost function Seen(pages: seq<Page>): seq<Stored> {
    if pages == [] then [] else Seen(pages[1..]) + pages[0].rows
  }

  /** The set of dates below the oldest date of a page is what the page has left over. */
  lemma LeftOver(page: Page, t: Table, uuid: Uuid, cursor: Cursor, size: nat) returns (dates: set<Date>)
    requires IsPage(page, t, uuid, cursor, size) && |page.rows| > 0
    ensures dates <= DatesBelow(t, uuid, cursor) && AreRowsOn(page.rows, t, uuid, dates)
    ensures DatesBelow(t, uuid, Before(page.rows[0].date)) == DatesBelow(t, uuid, cursor) - dates
    ensures |DatesBelow(t, uuid, Before(page.rows[0].date))| == |DatesBelow(t, uuid, cursor)| - |page.rows|
  {
    var below := DatesBelow(t, uuid, cursor);
    var oldest := page.rows[0].date;
    assert oldest in DatesOf(page.rows);
    dates :| AreRowsOn(page.rows, t, uuid, dates) && AreNewest(dates, below);
    forall date ensures date in DatesBelow(t, uuid, Before(oldest)) <==> date in below - dates {
      BelowHasRow(t, uuid, cursor, date);
      BelowHasRow(t, uuid, cursor, oldest);
      BelowHasRow(t, uuid, Before(oldest), date);
      assert oldest in dates && (date in DatesOf(page.rows) ==> oldest <= date);
    }
    RowsCountDates(page.rows, t, uuid, dates);
  }

  lemma RowsCountDates(rows: seq<Stored>, t: Table, uuid: Uuid, dates: set<Date>)
    requires AreRowsOn(rows, t, uuid, dates)
    ensures |rows| == |dates|
  {
    AscendingCountsDates(rows);
  }

  lemma {:induction false} AscendingCountsDates(rows: seq<Stored>)
    requires Ascending(rows)
    ensures |DatesOf(rows)| == |rows|
    decreases |rows|
  {
    if rows != [] {
      var rest := rows[1..];
      assert rows == [rows[0]] + rest;
      DatesOfJoin([rows[0]], rest);
      AscendingCountsDates(rest);
      assert DatesOf([rows[0]]) == {rows[0].date};
      assert rows[0].date !in DatesOf(rest);
    }
  }

  lemma DatesOfJoin(older: seq<Stored>, newer: seq<Stored>)
    ensures DatesOf(older + newer) == DatesOf(older) + DatesOf(newer)
  {
    var rows := older + newer;
    forall date | date in DatesOf(older) + DatesOf(newer) ensures date in DatesOf(rows) {
      if i :| 0 <= i < |older| && older[i].date == date {
        assert rows[i].date == date;
      } else {
        var i :| 0 <= i < |newer| && newer[i].date == date;
        assert rows[|older| + i].date == date;
      }
    }
  }

  /**
    A finished walk has seen every row the first cursor reached, once each and in date order, as
    those rows were when the walk began; rows put above the cursors in the meantime change nothing.
   */
  lemma {:induction false} WalkSeesEveryOlderRow(
    tables: seq<Table>, pages: seq<Page>, uuid: Uuid, cursor: Cursor, size: nat)
    requires IsWalk(tables, pages, uuid, cursor, size)
    requires !pages[|pages| - 1].hasMore
    ensures AreRowsOn(Seen(pages), tables[0], uuid, DatesBelow(tables[0], uuid, cursor))
    decreases |pages|
  {
    var t, page := tables[0], pages[0];
    if |pages| == 1 {
      assert pages[1..] == [] && Seen(pages) == page.rows;
      LastPageHasAll(page, t, uuid, cursor, size);
    } else {
      var next := Before(page.rows[0].date);
      WalkSeesEveryOlderRow(tables[1..], pages[1..], uuid, next, size);
      AddPage(Seen(pages[1..]), page, t, tables[1], uuid, cursor, size);
    }
  }

  lemma LastPageHasAll(page: Page, t: Table, uuid: Uuid, cursor: Cursor, size: nat)
    requires IsPage(page, t, uuid, cursor, size) && !page.hasMore
    ensures AreRowsOn(page.rows, t, uuid, DatesBelow(t, uuid, cursor))
  {
    var below := DatesBelow(t, uuid, cursor);
    var dates :| AreRowsOn(page.rows, t, uuid, dates) && AreNewest(dates, below);
    RowsCountDates(page.rows, t, uuid, dates);
    SubsetOfSameSize(dates, below);
  }

  lemma AddPage(older: seq<Stored>, page: Page, t: Table, u: Table, uuid: Uuid, cursor: Cursor, size: nat)
    requires IsPage(page, t, uuid, cursor, size) && |page.rows| > 0
    requires SameBelow(t, u, uuid, Before(page.rows[0].date))
    requires AreRowsOn(older, u, uuid, DatesBelow(u, uuid, Before(page.rows[0].date)))
    ensures AreRowsOn(older + page.rows, t, uuid, DatesBelow(t, uuid, cursor))
  {
    var oldest := page.rows[0].date;
    var dates := LeftOver(page, t, uuid, cursor, size);
    assert AreRowsOn(older, t, uuid, DatesBelow(t, uuid, cursor) - dates) && forall i | 0 <= i < |older| :: older[i].date < oldest by {
      SameBelowSameDates(t, u, uuid, Before(oldest));
      OlderRowsStay(older, t, u, uuid, oldest);
    }
    JoinRows(older, page.rows, t, uuid);
    PartsMakeWhole(dates, DatesBelow(t, uuid, cursor));
  }

  lemma PartsMakeWhole(part: set<Date>, whole: set<Date>)
    requires part <= whole
    ensures (whole - part) + part == whole
  {
  }

  lemma OlderRowsStay(older: seq<Stored>, t: Table, u: Table, uuid: Uuid, date: Date)
    requires SameBelow(t, u, uuid, Before(date))
    requires AreRowsOn(older, u, uuid, DatesBelow(u, uuid, Before(date)))
    ensures ComeFrom(older, t, uuid) && forall i | 0 <= i < |older| :: older[i].date < date
  {
    forall i | 0 <= i < |older|
      ensures older[i].date < date
      ensures Key(uuid, older[i].date) in t && older[i].row == t[Key(uuid, older[i].date)]
    {
      assert older[i].date in DatesOf(older);
      BelowHasRow(u, uuid, Before(date), older[i].date);
      assert Reaches(Before(date), older[i].date);
    }
  }

  lemma DatesOfAppend(rows: seq<Stored>, row: Stored)
    ensures DatesOf(rows + [row]) == DatesOf(rows) + {row.date}
  {
    DatesOfJoin(rows, [row]);
    assert [row][0] == row && DatesOf([row]) == {row.date};
  }

  function Reversed(rows: seq<Stored>): (r: seq<Stored>)
    ensures |r| == |rows| && DatesOf(r) == DatesOf(rows)
  {
    var r := seq(|rows|, i requires 0 <= i < |rows| => rows[|rows| - 1 - i]);
    assert forall i | 0 <= i < |rows| :: rows[i] == r[|rows| - 1 - i];
    r
  }

  // ----- Building a page, newest row first -----

  /** `rows` are the newest rows on the dates of `all`, newest first; those on `rest` are still out. */
  ghost predicate Collected(rows: seq<Stored>, rest: set<Date>, all: set<Date>, t: Table, uuid: Uuid) {
    && rest <= all && DatesOf(rows) == all - rest && ComeFrom(rows, t, uuid)
    && AreNewest(all - rest, all) && Ascending(Reversed(rows))
  }

  lemma CollectNext(rows: seq<Stored>, rest: set<Date>, all: set<Date>, t: Table, uuid: Uuid, date: Date)
    requires Collected(rows, rest, all, t, uuid)
    requires date in rest && Key(uuid, date) in t && forall other | other in rest :: other <= date
    ensures Collected(rows + [Stored(date, t[Key(uuid, date)])], rest - {date}, all, t, uuid)
  {
    var row := Stored(date, t[Key(uuid, date)]);
    DatesOfAppend(rows, row);
    assert Reversed(rows + [row]) == [row] + Reversed(rows);
    forall i | 0 <= i < |rows| ensures date < Reversed(rows)[i].date {
      assert Reversed(rows)[i].date in DatesOf(Reversed(rows));
    }
    assert all - (rest - {date}) == (all - rest) + {date};
  }

  /** Truncating the list puts its oldest row out again. */
  lemma TruncateLast(rows: seq<Stored>, rest: set<Date>, all: set<Date>, t: Table, uuid: Uuid)
    requires rows != [] && Collected(rows, rest, all, t, uuid)
    ensures var date := rows[|rows| - 1].date;
            date in all - rest && Collected(rows[..|rows| - 1], rest + {date}, all, t, uuid)
  {
    var kept, oldest := rows[..|rows| - 1], rows[|rows| - 1];
    assert rows == kept + [oldest];
    DatesOfAppend(kept, oldest);
    assert Reversed(rows) == [oldest] + Reversed(kept);
    forall i | 0 <= i < |kept| ensures Reversed(kept)[i] == Reversed(rows)[i + 1] && oldest.date < Reversed(kept)[i].date {
      assert Reversed(rows)[0].date < Reversed(rows)[i + 1].date;
    }
    forall date | date in DatesOf(Reversed(kept)) ensures oldest.date < date {
    }
    assert all - (rest + {oldest.date}) == DatesOf(kept);
  }

  lemma CollectedMakePage(rows: seq<Stored>, rest: set<Date>, t: Table, uuid: Uuid, cursor: Cursor, size: nat)
    requires Collected(rows, rest, DatesBelow(t, uuid, cursor), t, uuid)
    requires |rows| <= size && (|rows| < size ==> rest == {})
    ensures IsPage(Page(Reversed(rows), rest != {}), t, uuid, cursor, size)
  {
    var below := DatesBelow(t, uuid, cursor);
    var dates := below - rest;
    assert AreRowsOn(Reversed(rows), t, uuid, dates) && AreNewest(dates, below);
    RowsCountDates(Reversed(rows), t, uuid, dates);
    assert |below| == |dates| + |rest|;
  }

  lemma SubsetOfSameSize(part: set<Date>, whole: set<Date>)
    requires part <= whole && |part| == |whole|
    ensures part == whole
  {
    assert |whole - part| == |whole| - |part|;
  }

  lemma SameBelowSameDates(t: Table, u: Table, uuid: Uuid, cursor: Cursor)
    requires SameBelow(t, u, uuid, cursor)
    ensures DatesBelow(t, uuid, cursor) == DatesBelow(u, uuid, cursor)
    ensures forall date | date in DatesBelow(t, uuid, cursor) ::
              Key(uuid, date) in t && Key(uuid, date) in u && t[Key(uuid, date)] == u[Key(uuid, date)]
  {
    forall date ensures date in DatesBelow(t, uuid, cursor) <==> date in DatesBelow(u, uuid, cursor) {
      BelowHasRow(t, uuid, cursor, date);
      BelowHasRow(u, uuid, cursor, date);
    }
    forall date | date in DatesBelow(t, uuid, cursor)
      ensures Key(uuid, date) in t && Key(uuid, date) in u && t[Key(uuid, date)] == u[Key(uuid, date)]
    {
      BelowHasRow(t, uuid, cursor, date);
    }
  }

  lemma JoinRows(older: seq<Stored>, newer: seq<Stored>, t: Table, uuid: Uuid)
    requires |newer| > 0 && forall i | 0 <= i < |older| :: older[i].date < newer[0].date
    requires Ascending(older) && ComeFrom(older, t, uuid)
    requires Ascending(newer) && ComeFrom(newer, t, uuid)
    ensures AreRowsOn(older + newer, t, uuid, DatesOf(older) + DatesOf(newer))
  {
    DatesOfJoin(older, newer);
  }

  /** A walk cannot go on for ever: with pages of at least one row it ends after one page per row. */
  lemma {:induction false} WalkIsShort(
    tables: seq<Table>, pages: seq<Page>, uuid: Uuid, cursor: Cursor, size: nat)
    requires size > 0 && IsWalk(tables, pages, uuid, cursor, size)
    ensures (|pages| - 1) * size <= |DatesBelow(tables[0], uuid, cursor)|
    decreases |pages|
  {
    if |pages| > 1 {
      var next := Before(pages[0].rows[0].date);
      WalkIsShort(tables[1..], pages[1..], uuid, next, size);
      FullPage(pages[0], tables[0], uuid, cursor, size);
      SameBelowSameDates(tables[0], tables[1], uuid, next);
      OnePageMore(|pages| - 2, size, |DatesBelow(tables[0], uuid, next)|, |DatesBelow(tables[0], uuid, cursor)|);
    }
  }

  /** A page that is not the last one is full, and the rest is that much shorter. */
  lemma FullPage(page: Page, t: Table, uuid: Uuid, cursor: Cursor, size: nat)
    requires IsPage(page, t, uuid, cursor, size) && page.hasMore && |page.rows| > 0
    ensures |DatesBelow(t, uuid, Before(page.rows[0].date))| + size == |DatesBelow(t, uuid, cursor)|
  {
    var dates := LeftOver(page, t, uuid, cursor, size);
  }

  lemma OnePageMore(pages: nat, size: nat, rest: nat, all: nat)
    requires pages * size <= rest && rest + size <= all
    ensures (pages + 1) * size <= all
  {
    assert (pages + 1) * size == pages * size + size;
  }

  /** A page announces more exactly if the station has a row older than the oldest one on it. */
  lemma AnnouncesExactlyWhen(page: Page, t: Table, uuid: Uuid, cursor: Cursor, size: nat)
    requires IsPage(page, t, uuid, cursor, size) && page.rows != []
    ensures page.hasMore <==> exists k :: k in t && k.uuid == uuid && k.date < page.rows[0].date
  {
    var oldest := page.rows[0].date;
    var dates := LeftOver(page, t, uuid, cursor, size);
    var rest := DatesBelow(t, uuid, Before(oldest));
    if page.hasMore {
      assert rest != {};
      var date :| date in rest;
      BelowHasRow(t, uuid, Before(oldest), date);
      assert Key(uuid, date) in t;
    }
    if k :| k in t && k.uuid == uuid && k.date < oldest {
      assert k.date in rest;
    }
  }

  /** Only a station without rows below the cursor has an empty page. */
  lemma EmptyExactlyWhen(page: Page, t: Table, uuid: Uuid, cursor: Cursor, size: nat)
    requires IsPage(page, t, uuid, cursor, size) && size > 0
    ensures page.rows == [] <==> forall k | k in t && k.uuid == uuid :: !Reaches(cursor, k.date)
    ensures page.rows == [] ==> !page.hasMore
  {
    var below := DatesBelow(t, uuid, cursor);
    if k :| k in t && k.uuid == uuid && Reaches(cursor, k.date) {
      assert k.date in below;
    }
    if below != {} {
      var date :| date in below;
      BelowHasRow(t, uuid, cursor, date);
    }
  }
}
