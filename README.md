# Listening-history pipeline of the Spotify streaming history viewer

This project is a Dafny model of the listening-history pipeline of the
Spotify streaming history viewer, with proofs about it. The pipeline turns
a batch of uploaded extended-streaming-history files into a paginated,
filterable table of per-track play statistics. The model covers five parts.

- **Upload** (`UploadSection`, components/UploadSection.tsx). Every file of
  a batch must parse to an array whose elements all carry a string `ts`.
  The records are tagged with an `endTime` taken from `ts` and concatenated
  in file order. They are handed on in a single `onStreamsLoaded` call. The
  first failure rejects the whole batch, and nothing is handed on.
  `HandleUpload` is the loop the handler runs. It is proved equal to the
  function `Outcome`, and the lemmas state what `Outcome` promises.
- **Classification** (`Classification`). A record with the three
  `master_metadata_*` strings becomes a song play. Otherwise, a record with
  the two `episode_*` strings becomes an episode play. Any other record is
  dropped.
- **Aggregation** (`SongRows`). This is `getSongRows`. Plays are folded into
  a dictionary keyed by track name. `GetSongRows` is the imperative fold,
  and it is proved equal to the specification `SongRowsOf`. That function
  gives one row per distinct name, ordered by the first play of each name.
  The rows are then sorted by the stable sort of `Sorting`, most plays
  first. Play time is kept as whole milliseconds.
- **Query layer** (`Query`). This covers:
  - the year universe `calculateYearRange`: distinct years sorted as
    strings, because a comparator-less `sort` compares strings;
  - the year filter applied before aggregation;
  - the case-insensitive substring search on one column, applied after
    aggregation;
  - the page count, which is taken from the rows before the search, as the
    code does;
  - the 10-row page slice, with the full semantics of `Array.prototype.slice`.
- **Session** (`Home.HomeContent`). A class holds the component's state
  fields. Its methods are the state callbacks, and its `reads this`
  functions are the derived values the table shows.

The shared building blocks are:
- `Types`: JSON values, the record shapes of types/index.ts, Option and Result;
- `Seqs`: filter, de-duplication and slice;
- `Sorting`: the stable insertion sort;
- `Text`: ASCII lower-casing, `includes`, decimal strings and the string `<`.

## Model

| member | source | states |
|---|---|---|
| UploadSection.ValidateFile | components/UploadSection.tsx:18-36 | one file is rejected when it is not JSON, when it is not an array, or at its first element without a string `ts`; otherwise it yields its tagged elements; see `IngestFilesCorrect` and `RejectionNamesFirstBadFile` |
| UploadSection.Outcome | components/UploadSection.tsx:12-45 | what one call of the handler does: nothing for no files, a rejection at the first failing file, or one callback with the file count and all tagged records; see `OutcomeCorrect` |
| UploadSection.Tag | components/UploadSection.tsx:33-36 | the tagged record keeps every member of the parsed item except `ts` and `endTime`, with its value; its `ts` is the item's string `ts`; `endTime` is the date of that `ts`; it has no member the item lacks |
| UploadSection.FirstUntimestamped | components/UploadSection.tsx:26-30 | the position returned is an element without a string `ts`, and every element before it (all elements when none is returned) has one |
| UploadSection.IngestFailureIsFinal | components/UploadSection.tsx:15-44 | a failure in the first k files is the failure of the whole batch |
| UploadSection.IngestFilesCorrect | components/UploadSection.tsx:16-39 | ingestion succeeds exactly when every file is an array of elements with a string `ts`; it then yields the tagged elements of all files, in file order and then element order, as many as the files hold together |
| UploadSection.OutcomeCorrect | components/UploadSection.tsx:12-44 | an empty batch is skipped; the callback happens exactly when the batch is non-empty and every file is valid, with the number of files and the concatenated tagged records; any bad file anywhere means no callback |
| UploadSection.RejectionNamesFirstBadFile | components/UploadSection.tsx:18-31 | a rejection names an invalid file, and every file before it is valid |
| UploadSection.HandleUpload | components/UploadSection.tsx:12-45 | the loop over files, with its inner loop over elements and early abort, returns exactly `Outcome(files)` |
| Classification.IsSongStream | components/HomeContent.tsx:74-80 | a record is a song when its track, artist and album members are all strings |
| Classification.IsEpisodeStream | components/HomeContent.tsx:82-89 | a record is an episode when its episode and show names are both strings |
| Classification.SongsOf | components/HomeContent.tsx:152-171 | the song collection the loop builds, one record at a time; see `SongsAreSongRecords` |
| Classification.EpisodesOf | components/HomeContent.tsx:152-171 | the episode collection the loop builds, the song test made first; see `EpisodesAreEpisodeRecords` |
| Classification.SongsAreSongRecords | components/HomeContent.tsx:152-161 | the songs are the records passing `isSongStream`, each converted, in input order |
| Classification.EpisodesAreEpisodeRecords | components/HomeContent.tsx:162-170 | the episodes are the records passing `isEpisodeStream` but not `isSongStream`, each converted, in input order |
| Classification.ClassificationPartitions | components/HomeContent.tsx:152-171 | every record goes to exactly one of songs, episodes and the dropped records, so the two outputs together are at most the input size |
| SongRows.MoreCount | components/HomeContent.tsx:60 | the comparator `b.count - a.count`: a row goes first when it has more plays; see `SongRowsSortedByCount` |
| SongRows.AddPlay | components/HomeContent.tsx:43-51 | the `forEach` body: the row of the play's name is created from the play when missing, then gets one more count and the play time; see `RowOfAppend` |
| SongRows.SongRowsOf | components/HomeContent.tsx:33-63 | the rows `getSongRows` returns: one row per distinct name in first-seen order, sorted most plays first; see `RowOfStatistics`, `SongRowsOnePerTrack`, `SongRowsSortedByCount`, `SongRowsTiesFirstSeen` and `SongRowsTotals` |
| SongRows.RowOfAppend | components/HomeContent.tsx:43-51 | folding a play in adds one count and its play time to the row of its name, or creates that row from the play; every other row is unchanged |
| SongRows.FoldStep | components/HomeContent.tsx:36-53 | one step of the `forEach` keeps the invariant: the dictionary holds the finished row of each name seen, and its key order is the first-seen order |
| SongRows.FoldedValues | components/HomeContent.tsx:55 | `Object.values` of the folded dictionary lists the rows of the distinct names in first-seen order |
| SongRows.GetSongRows | components/HomeContent.tsx:33-63 | the fold, `Object.values` and the sort return exactly `SongRowsOf(events)` |
| SongRows.RowOfStatistics | components/HomeContent.tsx:36-53 | a row's count is the number of plays of its name (at least one); its time is the sum of `ms_played` over exactly those plays; its album and artist are those of the first play of the name |
| SongRows.SongRowsOnePerTrack | components/HomeContent.tsx:33-55 | there is exactly one row per distinct track name, no name twice, and each row is that name's finished row |
| SongRows.SongRowsSortedByCount | components/HomeContent.tsx:60 | the counts of the rows never increase down the list |
| SongRows.SongRowsTiesFirstSeen | components/HomeContent.tsx:55-60 | rows with equal counts appear in the order in which their names were first played (the sort is stable) |
| SongRows.SortKeepsTies | components/HomeContent.tsx:60 | sorting by count keeps rows with equal counts in their input order |
| SongRows.SongRowsTotals | components/HomeContent.tsx:36-53 | the counts add up to the number of plays, and the row times add up to the total play time |
| SongRows.HundredthsOfHour | components/HomeContent.tsx:58 | the hours shown, in hundredths, are the nearest to the play time, halves rounded up |
| Sorting.Sort | components/HomeContent.tsx:60 | sorting is a permutation of its input |
| Sorting.SortIsSorted | components/HomeContent.tsx:60 | under a strict order, no element of the result is required to precede an earlier one |
| Seqs.Filter | components/HomeContent.tsx:108-110 | `filter` keeps exactly the elements that pass, and never adds any |
| Seqs.FilterMultiplicity | components/HomeContent.tsx:124-132 | `filter` keeps each passing element as often as it occurs and drops the rest |
| Seqs.Distinct | components/HomeContent.tsx:66-67 | `Array.from(new Set(...))` has the same elements as its input, each once |
| Seqs.DistinctFirstSeenOrder | components/HomeContent.tsx:66-67 | the de-duplicated values are listed in the order of their first occurrence |
| Seqs.Slice | components/HomeContent.tsx:143 | `slice(start, end)` with negative and out-of-range positions clamped as JavaScript does; never longer than its input; see `PageContents` |
| Text.ContainsAt | components/HomeContent.tsx:126 | `includes` holds exactly when the searched text occurs at some position |
| Text.DigitsOrder | components/HomeContent.tsx:66-68 | for numbers with equally many digits, the string order is the numeric order |
| Query.YearRange | components/HomeContent.tsx:65-72 | `calculateYearRange`: the distinct years of the plays sorted by their strings; see `YearRangeIsYearSet`, `YearRangeNumericOrder` and `YearRangeInvalidLast` |
| Query.YearRangeIsYearSet | components/HomeContent.tsx:65-72 | the year range holds exactly the years of the plays (NaN included), each once, with no inversion in string order |
| Query.YearRangeNumericOrder | components/HomeContent.tsx:66-68 | when every year is valid and has four digits, the year range is strictly increasing |
| Query.YearRangeInvalidLast | components/HomeContent.tsx:66-68 | the NaN year of an unparseable timestamp, when some play has one, is offered last, since "NaN" sorts after every number's string |
| Query.YearFilter | components/HomeContent.tsx:104-116 | the plays whose year is selected, or every play when no year is selected; see `YearFilterCorrect` |
| Query.YearFilterCorrect | components/HomeContent.tsx:104-116 | no selected year keeps every play; otherwise each play of a selected year is kept as often as it occurs and every other play is dropped |
| Query.YearFilterConcat | components/HomeContent.tsx:107-111 | the year filter keeps the order of the plays it keeps |
| Query.MatchesSearch | components/HomeContent.tsx:124-132 | the search callback: the lower-cased chosen column (the name for an empty column) contains the lower-cased search text, and an unknown column matches nothing; see `MatchesSearchOccurs` |
| Query.SearchFilter | components/HomeContent.tsx:120-136 | the rows the callback keeps, or every row for an empty search; see `SearchFilterCorrect` |
| Query.SearchFilterCorrect | components/HomeContent.tsx:120-136 | an empty search keeps every row; otherwise a row is kept, as often as it occurs, exactly when the lower-cased search text occurs in the lower-cased text of the chosen column |
| Query.SearchFilterConcat | components/HomeContent.tsx:123-133 | the search keeps the order of the rows it keeps |
| Query.SearchUnknownColumnKeepsNothing | components/HomeContent.tsx:124-132 | a non-empty search on a column other than `""`, `name`, `album` and `artist` keeps no row |
| Query.SearchDefaultColumnIsName | components/HomeContent.tsx:125-126 | an empty column searches the name |
| Query.SearchIgnoresCase | components/HomeContent.tsx:126-130 | lower-casing the search text does not change the result |
| Query.PageCount | components/HomeContent.tsx:138 | the page count is the fewest pages of 10 that hold n rows |
| Query.PageOf | components/HomeContent.tsx:139-144 | a page holds at most 10 rows, whatever the page number |
| Query.PageContents | components/HomeContent.tsx:139-144 | for a page p from 1, the page is the rows from position (p-1)*10 on, at most 10 of them, and empty exactly when that position is past the last row |
| Query.PagesCoverRows | components/HomeContent.tsx:139-144 | row i is on page i/10 + 1, at position i mod 10 |
| Query.PageCountIsLastPage | components/HomeContent.tsx:138-144 | a page from 1 is non-empty exactly when it is at most the page count |
| Query.NumPagesCoversSearch | components/HomeContent.tsx:138 | the page count, taken before the search, never misses a page that holds searched rows |
| Home.HomeContent.constructor | components/HomeContent.tsx:92-99 | the session starts with no files, no plays, an empty search, an empty column, no selected year and page 1 |
| Home.HomeContent.YearsRange | components/HomeContent.tsx:103 | the years offered are exactly the years of the loaded song plays, NaN included |
| Home.HomeContent.YearSongRows | components/HomeContent.tsx:104-118 | the rows count every play of the selected years once |
| Home.HomeContent.FilteredSongRows | components/HomeContent.tsx:120-136 | the search never adds a row |
| Home.HomeContent.NumPages | components/HomeContent.tsx:138 | the page count has room for every row before the search |
| Home.HomeContent.FilteredSongRowsPage | components/HomeContent.tsx:139-144 | the page on view has at most 10 rows, and when it is non-empty its number is within the page count |
| Home.HomeContent.OnStreamsLoaded | components/HomeContent.tsx:146-174 | the classification loop replaces both collections with the classified records of the batch and sets the file count; the page and the filters are unchanged |
| Home.HomeContent.OnClear | components/HomeContent.tsx:199-202 | the search is emptied and page 1 shown; nothing else changes |
| Home.HomeContent.OnSearchChange | components/HomeContent.tsx:204-211 | the search is set; the page goes to 1 only for a non-empty search; nothing else changes |
| Home.HomeContent.OnFilterColumnSelectionChange | components/HomeContent.tsx:213-222 | a selected key becomes the column and page 1 is shown; no key sets the column to `name` and keeps the page; nothing else changes |
| Home.HomeContent.OnFilterYearSelectionChange | components/HomeContent.tsx:224-233 | the year selection is set; the page goes to 1 only for a non-empty selection; nothing else changes |
| Home.HomeContent.OnPageChange | components/HomeContent.tsx:307 | the page is set; the filters and the data are unchanged |
| Home.HomeContent.ReceiveUpload | components/HomeContent.tsx:241 | an accepted batch replaces the collections with its classified records and sets the file count; a skipped or rejected batch leaves the session as it was; the page and the filters never change |

## Left out

- Reading the files (`file.text()`) and `JSON.parse` are asynchronous I/O and a foreign parser, so each file comes in as its parse result (`Parse`). A file that is not JSON still rejects the batch.
- JSON numbers are integers in the model. Fractional `ms_played` values and floating-point hours are not modelled.
- SongRows.PlayedMs: an `ms_played` that is not a JSON number counts as 0 milliseconds. In the source, the division on line 50 coerces it instead. A missing value or a non-numeric string makes the row's time `NaN`. `null` counts 0 ms, a numeric string such as `"300000"` counts as that many ms, and `true` counts 1 ms.
- SongRows.HundredthsOfHour: the rounding is stated over the exact total in milliseconds. The source adds up floating-point hours play by play, and that floating-point error is not modelled.
- `new Date(ts)` and `getFullYear()` depend on the observer's time zone and date parser. The year of a timestamp is the parameter `yearOf` of the session, and `endTime` is kept as the uninterpreted `DateOf(ts)`. Which strings parse is part of that parameter. An unparseable `ts` has the year `None`, which stands for NaN. It is written "NaN" when sorted, and it matches a selected NaN, as `includes` does.
- Text.Lower: `toLowerCase` is modelled for ASCII letters only. Unicode case mapping is not modelled.
- SongRows.FoldedValues: `Object.values` is modelled in key insertion order over a dictionary with no inherited members. The source differs in two ways. JavaScript lists integer-like keys first, in numeric order, so a track named "1984" would come first among rows with its count. Also, a name inherited from `Object.prototype` gives no proper row, as the next two lines describe. Neither difference is modelled.
- SongRows.FoldStep: a play whose track name is a member `rowMap = {}` inherits from `Object.prototype` is not modelled. For names such as "constructor" or "toString", line 43 takes the inherited function as the row. Lines 50-51 then make its `time` and `count` NaN, and the spread on lines 56-59 yields a row with no name, album or artist, on which the name search of line 126 throws. For "__proto__", the updates land on the prototype and no row appears. The model gives such names an ordinary row.
- SongRows.GetSongRows: it equals `SongRowsOf` only for track names that `Object.prototype` does not define, and only when no name is integer-like (see `SongRows.FoldedValues`). For the inherited names in the previous line, and for the tie order of integer-like names, the source's result is not modelled.
- `Array.from(keys).map(Number)` in the year selection and `keys.currentKey` in the column selection come from the select widgets. They arrive as a sequence of years (`None` for NaN) and an optional string.
- Home.HomeContent.OnPageChange requires a page from 1 on, because that is the range the pagination widget reports. The source does not check it.
- React memoisation is not modelled, and the derived values are always computed from the current state. The dependency list of `filteredSongRows` omits `filterColumn`, but `songRows` is a new array on every render, so the search is recomputed each time and the omission has no effect.
- The following are rendering or logging and carry no pipeline logic, so they are not modelled: JSX, the `mostPlayedSongsRows` key mapping, `console.log` and `console.error`.
- The episodes tab shows no table, so episode plays are only collected.
- app/layout.tsx, app/upload/Upload.tsx and config/site.ts are layout, a stub button and static configuration, so they are not modelled.
