/** The session state of the `HomeContent` component
    (components/HomeContent.tsx): the loaded plays and the filter fields,
    the values derived from them for the table, and the callbacks that
    update them. */
module Home {
  import opened Types
  import opened Classification
  import opened SongRows
  import opened Query
  import opened UploadSection

  class HomeContent {
    /** The calendar year of a timestamp, in the observer's time zone. */
    const yearOf: string -> Year

    var fileCount: nat
    var songStreams: seq<SongEvent>
    var episodeStreams: seq<EpisodeEvent>
    var pageNumber: int
    var filterValue: string
    var filterColumn: string
    var yearsFilter: seq<Year>

    /** The page on view is numbered from 1. */
    ghost predicate Valid()
      reads this
    {
      pageNumber >= 1
    }

    /** The initial state: nothing loaded, no filter, first page. */
    constructor(yearOf: string -> Year)
      ensures Valid()
      ensures this.yearOf == yearOf && fileCount == 0
      ensures songStreams == [] && episodeStreams == []
      ensures pageNumber == 1 && filterValue == "" && filterColumn == "" && yearsFilter == []
    {
      this.yearOf := yearOf;
      fileCount := 0;
      songStreams := [];
      episodeStreams := [];
      pageNumber := 1;
      filterValue := "";
      filterColumn := "";
      yearsFilter := [];
    }

    /** `yearsRange`: the years the year selection offers. */
    function YearsRange(): (r: seq<Year>)
      reads this
      ensures forall y :: y in r <==> exists e :: e in songStreams && yearOf(e.ts) == y
    {
      YearRangeIsYearSet(songStreams, yearOf);
      YearRange(songStreams, yearOf)
    }

    /** `songRows`: the rows of the plays in the selected years. */
    function YearSongRows(): (r: seq<SongRow>)
      reads this
      ensures SumCounts(r) == |YearFilter(songStreams, yearsFilter, yearOf)|
    {
      SongRowsTotals(YearFilter(songStreams, yearsFilter, yearOf));
      SongRowsOf(YearFilter(songStreams, yearsFilter, yearOf))
    }

    /** `filteredSongRows`: the rows the search keeps. */
    function FilteredSongRows(): (r: seq<SongRow>)
      reads this
      ensures |r| <= |YearSongRows()|
    {
      SearchFilterShrinks(YearSongRows(), filterValue, filterColumn);
      SearchFilter(YearSongRows(), filterValue, filterColumn)
    }

    /** `numPages`, counted from the rows before the search. */
    function NumPages(): (n: nat)
      reads this
      ensures PageSize * n >= |YearSongRows()|
    {
      PageCount(|YearSongRows()|)
    }

    /** `filteredSongRowsPage`: the rows on view. */
    function FilteredSongRowsPage(): (r: seq<SongRow>)
      reads this
      ensures |r| <= PageSize
      ensures Valid() && r != [] ==> pageNumber <= NumPages()
    {
      var page := PageOf(FilteredSongRows(), pageNumber);
      if pageNumber >= 1 && page != [] then
        NumPagesCoversSearch(YearSongRows(), filterValue, filterColumn, pageNumber);
        page
      else
        page
    }

    /** `onStreamsLoaded`: the records are classified one by one, and the
        song and episode collections are replaced by what this batch holds.
        The page and the filters are left as they were. */
    method OnStreamsLoaded(count: nat, streams: seq<ExtendedStream>)
      requires Valid()
      modifies this
      ensures Valid()
      ensures fileCount == count
      ensures songStreams == SongsOf(streams) && episodeStreams == EpisodesOf(streams)
      ensures pageNumber == old(pageNumber) && filterValue == old(filterValue)
      ensures filterColumn == old(filterColumn) && yearsFilter == old(yearsFilter)
    {
      fileCount := count;
      var songs: seq<SongEvent> := [];
      var episodes: seq<EpisodeEvent> := [];
      var i := 0;
      while i < |streams|
        invariant 0 <= i <= |streams|
        invariant songs == SongsOf(streams[..i])
        invariant episodes == EpisodesOf(streams[..i])
      {
        var stream := streams[i];
        assert streams[..i + 1][..i] == streams[..i];
        if IsSongStream(stream) {
          songs := songs + [ToSong(stream)];
        } else if IsEpisodeStream(stream) {
          episodes := episodes + [ToEpisode(stream)];
        }
        i := i + 1;
      }
      assert streams[..i] == streams;
      songStreams := songs;
      episodeStreams := episodes;
    }

    /** `onClear`: the search is emptied and the first page shown. */
    method OnClear()
      modifies this
      ensures Valid()
      ensures filterValue == "" && pageNumber == 1
      ensures filterColumn == old(filterColumn) && yearsFilter == old(yearsFilter)
      ensures fileCount == old(fileCount) && songStreams == old(songStreams) && episodeStreams == old(episodeStreams)
    {
      filterValue := "";
      pageNumber := 1;
    }

    /** `onSearchChange`: a non-empty search is set and the first page
        shown; an empty one clears the search and keeps the page. */
    method OnSearchChange(value: string)
      requires Valid()
      modifies this
      ensures Valid()
      ensures filterValue == value
      ensures pageNumber == if value != "" then 1 else old(pageNumber)
      ensures filterColumn == old(filterColumn) && yearsFilter == old(yearsFilter)
      ensures fileCount == old(fileCount) && songStreams == old(songStreams) && episodeStreams == old(episodeStreams)
    {
      if value != "" {
        filterValue := value;
        pageNumber := 1;
      } else {
        filterValue := "";
      }
    }

    /** `onFilterColumnSelectionChange`: a selected column is set and the
        first page shown; with no (or an empty) key the column becomes the
        name column and the page is kept. */
    method OnFilterColumnSelectionChange(key: Option<string>)
      requires Valid()
      modifies this
      ensures Valid()
      ensures filterColumn == if key.Some? && key.value != "" then key.value else "name"
      ensures pageNumber == if key.Some? && key.value != "" then 1 else old(pageNumber)
      ensures filterValue == old(filterValue) && yearsFilter == old(yearsFilter)
      ensures fileCount == old(fileCount) && songStreams == old(songStreams) && episodeStreams == old(episodeStreams)
    {
      if key.Some? && key.value != "" {
        filterColumn := key.value;
        pageNumber := 1;
      } else {
        filterColumn := "name";
      }
    }

    /** `onFilterYearSelectionChange`: a non-empty selection is set and the
        first page shown; an empty one clears the selection and keeps the
        page. */
    method OnFilterYearSelectionChange(values: seq<Year>)
      requires Valid()
      modifies this
      ensures Valid()
      ensures yearsFilter == values
      ensures pageNumber == if |values| > 0 then 1 else old(pageNumber)
      ensures filterValue == old(filterValue) && filterColumn == old(filterColumn)
      ensures fileCount == old(fileCount) && songStreams == old(songStreams) && episodeStreams == old(episodeStreams)
    {
      if |values| > 0 {
        yearsFilter := values;
        pageNumber := 1;
      } else {
        yearsFilter := [];
      }
    }

    /** The pagination's `onChange`, which reports a page from 1 on. */
    method OnPageChange(page: int)
      requires page >= 1
      modifies this
      ensures Valid() && pageNumber == page
      ensures filterValue == old(filterValue) && filterColumn == old(filterColumn) && yearsFilter == old(yearsFilter)
      ensures fileCount == old(fileCount) && songStreams == old(songStreams) && episodeStreams == old(episodeStreams)
    {
      pageNumber := page;
    }

    /** An upload: `handleUpload` runs and, when it loads the batch,
        `onStreamsLoaded` replaces the collections; otherwise the session is
        left as it was. */
    method ReceiveUpload(files: seq<Parse>)
      requires Valid()
      modifies this
      ensures Valid()
      ensures Outcome(files).Loaded? ==>
        && fileCount == |files|
        && songStreams == SongsOf(Outcome(files).streams)
        && episodeStreams == EpisodesOf(Outcome(files).streams)
      ensures !Outcome(files).Loaded? ==>
        fileCount == old(fileCount) && songStreams == old(songStreams) && episodeStreams == old(episodeStreams)
      ensures pageNumber == old(pageNumber) && filterValue == old(filterValue)
      ensures filterColumn == old(filterColumn) && yearsFilter == old(yearsFilter)
    {
      var outcome := HandleUpload(files);
      if outcome.Loaded? {
        OnStreamsLoaded(outcome.fileCount, outcome.streams);
      }
    }
  }
}
