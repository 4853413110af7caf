/** What the table shows of the loaded song plays (components/HomeContent.tsx):
    the years to choose from, the year filter applied to the plays before
    they are aggregated, the column search applied to the rows after, the
    number of pages and the page on view. */
module Query {
  import opened Types
  import opened Seqs
  import opened Sorting
  import opened Text
  import opened SongRows

  /** Rows per page. */
  const PageSize: nat := 10

  /** `new Date(ts).getFullYear()`: a calendar year, or None for the NaN an
      unparseable timestamp gives. */
  type Year = Option<int>

  /** The calendar year of each play, in play order. `yearOf` reads a
      timestamp in the observer's calendar. */
  function Years(events: seq<SongEvent>, yearOf: string -> Year): (r: seq<Year>)
    ensures |r| == |events|
  {
    seq(|events|, i requires 0 <= i < |events| => yearOf(events[i].ts))
  }

  /** `String(year)`: the decimal string of a year, and "NaN" for NaN. */
  function YearText(y: Year): string
  {
    match y
    case None => "NaN"
    case Some(n) => Decimal(n)
  }

  /** The order of a comparator-less `sort` on numbers: their strings are
      compared. */
  function YearBefore(a: Year, b: Year): bool
  {
    LexLess(YearText(a), YearText(b))
  }

  /** `calculateYearRange`: the distinct years, sorted as strings. */
  function YearRange(events: seq<SongEvent>, yearOf: string -> Year): seq<Year>
  {
    Sort(YearBefore, Distinct(Years(events, yearOf)))
  }

  lemma YearBeforeIsStrict()
    ensures StrictOrder(YearBefore)
  {
    forall a: Year
      ensures !YearBefore(a, a)
    {
      LexLessIrreflexive(YearText(a));
    }
    forall a: Year, b: Year, c: Year | YearBefore(a, b) && YearBefore(b, c)
      ensures YearBefore(a, c)
    {
      LexLessTransitive(YearText(a), YearText(b), YearText(c));
    }
  }

  /** The year range lists every year some play falls in, and nothing else,
      each once, with no year whose string sorts before that of an earlier
      one. */
  lemma YearRangeIsYearSet(events: seq<SongEvent>, yearOf: string -> Year)
    ensures forall y :: y in YearRange(events, yearOf) <==> exists e :: e in events && yearOf(e.ts) == y
    ensures NoDuplicates(YearRange(events, yearOf))
    ensures forall i, j :: 0 <= i < j < |YearRange(events, yearOf)| ==>
      !LexLess(YearText(YearRange(events, yearOf)[j]), YearText(YearRange(events, yearOf)[i]))
  {
    var years := Years(events, yearOf);
    var range := YearRange(events, yearOf);
    forall y
      ensures y in range <==> exists e :: e in events && yearOf(e.ts) == y
    {
      assert y in range <==> y in multiset(Distinct(years));
      if y in years {
        var i :| 0 <= i < |years| && years[i] == y;
        assert events[i] in events;
      }
      if exists e :: e in events && yearOf(e.ts) == y {
        var e :| e in events && yearOf(e.ts) == y;
        var i :| 0 <= i < |events| && events[i] == e;
        assert years[i] == y;
      }
    }
    NoDuplicatesPermutation(Distinct(years), range);
    YearBeforeIsStrict();
    SortIsSorted(YearBefore, Distinct(years));
  }

  /** When every year is valid and has four digits, the string order is the
      numeric order, and the range is strictly increasing. */
  lemma YearRangeNumericOrder(events: seq<SongEvent>, yearOf: string -> Year)
    requires forall e :: e in events ==> yearOf(e.ts).Some? && 1000 <= yearOf(e.ts).value <= 9999
    ensures forall y :: y in YearRange(events, yearOf) ==> y.Some?
    ensures forall i, j :: 0 <= i < j < |YearRange(events, yearOf)| ==>
      YearRange(events, yearOf)[i].value < YearRange(events, yearOf)[j].value
  {
    var range := YearRange(events, yearOf);
    YearRangeIsYearSet(events, yearOf);
    forall i, j | 0 <= i < j < |range|
      ensures range[i].Some? && range[j].Some? && range[i].value < range[j].value
    {
      assert range[i] in range && range[j] in range;
      FourDigitYearsInOrder(range[i].value, range[j].value);
    }
  }

  /** Two distinct four-digit years in string order are in numeric order. */
  lemma FourDigitYearsInOrder(a: int, b: int)
    requires 1000 <= a <= 9999 && 1000 <= b <= 9999 && a != b
    requires !LexLess(YearText(Some(b)), YearText(Some(a)))
    ensures a < b
  {
    FourDigits(a);
    FourDigits(b);
    DigitsOrder(b, a);
  }

  /** The string of a number sorts before "NaN". */
  lemma NumberBeforeNaN(n: int)
    ensures YearBefore(Some(n), None)
  {
    DigitsLead(if n < 0 then -n else n);
  }

  /** An invalid year, when some play has one, is offered last. */
  lemma YearRangeInvalidLast(events: seq<SongEvent>, yearOf: string -> Year)
    requires exists e :: e in events && yearOf(e.ts).None?
    ensures YearRange(events, yearOf) != []
    ensures YearRange(events, yearOf)[|YearRange(events, yearOf)| - 1] == None
  {
    var range := YearRange(events, yearOf);
    YearRangeIsYearSet(events, yearOf);
    assert None in range;
    var i :| 0 <= i < |range| && range[i] == None;
    if i < |range| - 1 {
      var last := range[|range| - 1];
      assert last != None;
      NumberBeforeNaN(last.value);
    }
  }

  function InYears(years: seq<Year>, yearOf: string -> Year): SongEvent -> bool
  {
    (e: SongEvent) => yearOf(e.ts) in years
  }

  /** `filteredByYearSongStreams`: the plays in one of the selected years, or
      all plays when no year is selected. */
  function YearFilter(events: seq<SongEvent>, years: seq<Year>, yearOf: string -> Year): seq<SongEvent>
  {
    if |years| > 0 then Filter(InYears(years, yearOf), events) else events
  }

  /** No selection keeps every play; a selection keeps each play of a
      selected year as often as it occurs and drops every other play, and the
      filter keeps the order of the plays it keeps. */
  lemma YearFilterCorrect(events: seq<SongEvent>, years: seq<Year>, yearOf: string -> Year)
    ensures years == [] ==> YearFilter(events, years, yearOf) == events
    ensures years != [] ==> forall e ::
      multiset(YearFilter(events, years, yearOf))[e] == if yearOf(e.ts) in years then multiset(events)[e] else 0
  {
    if years != [] {
      forall e
        ensures multiset(YearFilter(events, years, yearOf))[e] == if yearOf(e.ts) in years then multiset(events)[e] else 0
      {
        FilterMultiplicity(InYears(years, yearOf), events, e);
      }
    }
  }

  lemma YearFilterConcat(a: seq<SongEvent>, b: seq<SongEvent>, years: seq<Year>, yearOf: string -> Year)
    ensures YearFilter(a + b, years, yearOf) == YearFilter(a, years, yearOf) + YearFilter(b, years, yearOf)
  {
    FilterConcat(InYears(years, yearOf), a, b);
  }

  /** The text of the searched column, or None for a column the search does
      not know. An empty column name stands for the name column. */
  function ColumnText(row: SongRow, column: string): Option<string>
  {
    match column
    case "" => Some(row.name)
    case "name" => Some(row.name)
    case "album" => Some(row.album)
    case "artist" => Some(row.artist)
    case _ => None
  }

  /** The predicate of the search filter. */
  function MatchesSearch(row: SongRow, value: string, column: string): bool
  {
    if column == "name" || column == "" then Contains(Lower(row.name), Lower(value))
    else if column == "album" then Contains(Lower(row.album), Lower(value))
    else if column == "artist" then Contains(Lower(row.artist), Lower(value))
    else false
  }

  function Matching(value: string, column: string): SongRow -> bool
  {
    (row: SongRow) => MatchesSearch(row, value, column)
  }

  /** `filteredSongRows`: the rows whose chosen column holds the search text,
      ignoring case, or all rows when the search text is empty. */
  function SearchFilter(rows: seq<SongRow>, value: string, column: string): seq<SongRow>
  {
    if value != "" then Filter(Matching(value, column), rows) else rows
  }

  /** The search text matches a row when its lower-cased form occurs at some
      position of the lower-cased text of the chosen column. */
  predicate Occurs(value: string, row: SongRow, column: string)
  {
    ColumnText(row, column).Some? &&
    exists i :: 0 <= i <= |ColumnText(row, column).value| && Lower(value) <= Lower(ColumnText(row, column).value)[i..]
  }

  lemma MatchesSearchOccurs(row: SongRow, value: string, column: string)
    ensures MatchesSearch(row, value, column) <==> Occurs(value, row, column)
  {
    if ColumnText(row, column).Some? {
      ContainsAt(Lower(ColumnText(row, column).value), Lower(value));
    }
  }

  /** An empty search keeps every row; otherwise the search keeps a row, as
      often as it occurs, exactly when the search text occurs in its column,
      and it keeps the order of the rows it keeps. */
  lemma SearchFilterCorrect(rows: seq<SongRow>, value: string, column: string)
    ensures value == "" ==> SearchFilter(rows, value, column) == rows
    ensures value != "" ==> forall r ::
      multiset(SearchFilter(rows, value, column))[r] == if Occurs(value, r, column) then multiset(rows)[r] else 0
  {
    if value != "" {
      forall r
        ensures multiset(SearchFilter(rows, value, column))[r] == if Occurs(value, r, column) then multiset(rows)[r] else 0
      {
        FilterMultiplicity(Matching(value, column), rows, r);
        MatchesSearchOccurs(r, value, column);
      }
    }
  }

  lemma SearchFilterConcat(a: seq<SongRow>, b: seq<SongRow>, value: string, column: string)
    ensures SearchFilter(a + b, value, column) == SearchFilter(a, value, column) + SearchFilter(b, value, column)
  {
    FilterConcat(Matching(value, column), a, b);
  }

  /** A non-empty search on a column other than the name, album and artist
      columns keeps no row. */
  lemma SearchUnknownColumnKeepsNothing(rows: seq<SongRow>, value: string, column: string)
    requires value != "" && column !in {"", "name", "album", "artist"}
    ensures SearchFilter(rows, value, column) == []
  {
    if SearchFilter(rows, value, column) != [] {
      var r := SearchFilter(rows, value, column)[0];
      assert r in SearchFilter(rows, value, column);
      MatchesSearchOccurs(r, value, column);
    }
  }

  /** Searching the empty column is searching the name column. */
  lemma SearchDefaultColumnIsName(rows: seq<SongRow>, value: string)
    ensures SearchFilter(rows, value, "") == SearchFilter(rows, value, "name")
  {
    FilterExtensional(Matching(value, ""), Matching(value, "name"), rows);
  }

  /** The case of the search text does not matter. */
  lemma SearchIgnoresCase(rows: seq<SongRow>, value: string, column: string)
    ensures SearchFilter(rows, Lower(value), column) == SearchFilter(rows, value, column)
  {
    LowerIdempotent(value);
    FilterExtensional(Matching(Lower(value), column), Matching(value, column), rows);
  }

  /** The search never adds a row: it keeps at most as many as it is given. */
  lemma SearchFilterShrinks(rows: seq<SongRow>, value: string, column: string)
    ensures |SearchFilter(rows, value, column)| <= |rows|
  {
  }

  /** `Math.ceil(n / pageSize)`: the fewest pages that hold `n` rows. */
  function PageCount(n: nat): (k: nat)
    ensures PageSize * k >= n
    ensures k == 0 || PageSize * (k - 1) < n
  {
    (n + PageSize - 1) / PageSize
  }

  /** `rows.slice((page - 1) * pageSize, (page - 1) * pageSize + pageSize)`,
      for any page number. */
  function PageOf<T>(rows: seq<T>, page: int): (r: seq<T>)
    ensures |r| <= PageSize
  {
    Slice(rows, (page - 1) * PageSize, (page - 1) * PageSize + PageSize)
  }

  /** For a page numbered from 1, the page holds the rows from position
      `(page - 1) * pageSize` on, at most `pageSize` of them, and is empty
      exactly when that position is past the last row. */
  lemma PageContents<T>(rows: seq<T>, page: int)
    requires page >= 1
    ensures var start := (page - 1) * PageSize;
      && |PageOf(rows, page)| == (if start >= |rows| then 0 else if |rows| - start < PageSize then |rows| - start else PageSize)
      && (forall k :: 0 <= k < |PageOf(rows, page)| ==> PageOf(rows, page)[k] == rows[start + k])
  {
  }

  /** Each row is on page `i / pageSize + 1`, at position `i % pageSize`. */
  lemma PagesCoverRows<T>(rows: seq<T>, i: nat)
    requires i < |rows|
    ensures i % PageSize < |PageOf(rows, i / PageSize + 1)|
    ensures PageOf(rows, i / PageSize + 1)[i % PageSize] == rows[i]
  {
    PageContents(rows, i / PageSize + 1);
  }

  /** The pages numbered 1 to `PageCount(|rows|)` are non-empty and the pages
      after them are empty. */
  lemma PageCountIsLastPage<T>(rows: seq<T>, page: int)
    requires page >= 1
    ensures PageOf(rows, page) != [] <==> page <= PageCount(|rows|)
  {
    PageContents(rows, page);
  }

  /** The page count is taken from the rows before the search. It can count
      pages the search left empty, but it never misses a page that holds
      searched rows. */
  lemma NumPagesCoversSearch(rows: seq<SongRow>, value: string, column: string, page: int)
    requires page >= 1
    requires PageOf(SearchFilter(rows, value, column), page) != []
    ensures page <= PageCount(|rows|)
  {
    PageCountIsLastPage(SearchFilter(rows, value, column), page);
    SearchFilterShrinks(rows, value, column);
  }
}
