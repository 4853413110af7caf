/** `getSongRows` of components/HomeContent.tsx: song plays are folded into one
    row per track name, which keeps the album and artist of the track's first
    play and accumulates play time and a play count; the rows, listed in the
    order their names were first seen, are then stably sorted by count,
    highest first. */
module SongRows {
  import opened Types
  import opened Seqs
  import opened Sorting

  /** One row of the most-played table. Play time is kept as whole
      milliseconds; `HundredthsOfHour` gives the hours the table shows. */
  datatype SongRow = SongRow(name: string, album: string, artist: string, ms: int, count: nat)

  /** `ms_played` as a number of milliseconds (0 when it is not a number). */
  function PlayedMs(e: SongEvent): int
  {
    match e.msPlayed
    case Some(JNumber(n)) => n
    case _ => 0
  }

  function TotalMs(events: seq<SongEvent>): int
  {
    if events == [] then 0 else PlayedMs(events[0]) + TotalMs(events[1..])
  }

  function NameIs(name: string): SongEvent -> bool
  {
    (e: SongEvent) => e.track == name
  }

  /** The plays of track `name`, in input order. */
  function PlaysOf(events: seq<SongEvent>, name: string): seq<SongEvent>
  {
    Filter(NameIs(name), events)
  }

  function TrackNames(events: seq<SongEvent>): seq<string>
  {
    seq(|events|, i requires 0 <= i < |events| => events[i].track)
  }

  /** The keys of `rowMap` in insertion order, which is the order of
      `Object.values(rowMap)`. */
  function FirstSeenNames(events: seq<SongEvent>): seq<string>
  {
    Distinct(TrackNames(events))
  }

  /** The row for track `name` once every play has been folded in. */
  function RowOf(events: seq<SongEvent>, name: string): (r: SongRow)
    requires name in TrackNames(events)
  {
    var plays := PlaysOf(events, name);
    PlaysNonEmpty(events, name);
    SongRow(name, plays[0].album, plays[0].artist, TotalMs(plays), |plays|)
  }

  /** `Object.values(rowMap)` */
  function RowsFor(events: seq<SongEvent>, names: seq<string>): (r: seq<SongRow>)
    requires forall n :: n in names ==> n in TrackNames(events)
    ensures |r| == |names|
  {
    seq(|names|, k requires 0 <= k < |names| => RowOf(events, names[k]))
  }

  /** The comparator `(a, b) => b.count - a.count`: `a` goes first when its
      count is higher. */
  function MoreCount(a: SongRow, b: SongRow): bool
  {
    a.count > b.count
  }

  /** What `getSongRows(events)` returns. */
  function SongRowsOf(events: seq<SongEvent>): seq<SongRow>
  {
    Sort(MoreCount, RowsFor(events, FirstSeenNames(events)))
  }

  /** `Math.round(hours * 100)` for a play time of `ms` milliseconds: the
      nearest number of hundredths of an hour, halves rounded up. */
  function HundredthsOfHour(ms: int): (h: int)
    ensures 36000 * h - 18000 <= ms < 36000 * h + 18000
  {
    (ms + 18000) / 36000
  }

  lemma TrackNamesAppend(s: seq<SongEvent>, e: SongEvent)
    ensures TrackNames(s + [e]) == TrackNames(s) + [e.track]
  {
  }

  lemma TrackNamesMember(s: seq<SongEvent>, e: SongEvent)
    requires e in s
    ensures e.track in TrackNames(s)
  {
    var i :| 0 <= i < |s| && s[i] == e;
    assert TrackNames(s)[i] == e.track;
  }

  lemma PlaysNonEmpty(events: seq<SongEvent>, name: string)
    requires name in TrackNames(events)
    ensures PlaysOf(events, name) != []
  {
    var i :| 0 <= i < |events| && TrackNames(events)[i] == name;
    assert events[i] in PlaysOf(events, name);
  }

  lemma {:induction false} TotalMsAppend(a: seq<SongEvent>, b: seq<SongEvent>)
    ensures TotalMs(a + b) == TotalMs(a) + TotalMs(b)
  {
    if a == [] {
      assert a + b == b;
    } else {
      assert (a + b)[0] == a[0];
      assert (a + b)[1..] == a[1..] + b;
      TotalMsAppend(a[1..], b);
    }
  }

  /** Folding one more play into the rows: the row of that play's track gets
      one more count and its play time (or is created from that play), and
      every other row stays as it was. */
  lemma RowOfAppend(s: seq<SongEvent>, e: SongEvent, name: string)
    requires name in TrackNames(s + [e])
    ensures name != e.track ==> name in TrackNames(s) && RowOf(s + [e], name) == RowOf(s, name)
    ensures name == e.track && name in TrackNames(s) ==>
      RowOf(s + [e], name) == RowOf(s, name).(ms := RowOf(s, name).ms + PlayedMs(e), count := RowOf(s, name).count + 1)
    ensures name == e.track && name !in TrackNames(s) ==>
      RowOf(s + [e], name) == SongRow(name, e.album, e.artist, PlayedMs(e), 1)
  {
    TrackNamesAppend(s, e);
    FilterConcat(NameIs(name), s, [e]);
    var plays := PlaysOf(s, name);
    var added := Filter(NameIs(name), [e]);
    assert PlaysOf(s + [e], name) == plays + added;
    TotalMsAppend(plays, added);
    assert TotalMs(added) == if name == e.track then PlayedMs(e) else 0;
    if name in TrackNames(s) {
      PlaysNonEmpty(s, name);
      assert (plays + added)[0] == plays[0];
    } else if name == e.track {
      forall x | x in plays
        ensures x.track == name && x.track in TrackNames(s)
      {
        assert NameIs(name)(x);
        TrackNamesMember(s, x);
      }
      assert plays == [];
      assert plays + added == [e];
    }
  }

  /** The rows built so far from the plays `s`: `rowMap` holds one finished
      row per track name of `s`, and `order` lists its keys as inserted. */
  ghost predicate Folded(rowMap: map<string, SongRow>, order: seq<string>, s: seq<SongEvent>)
  {
    && order == FirstSeenNames(s)
    && (forall n :: n in rowMap <==> n in TrackNames(s))
    && (forall n :: n in rowMap ==> rowMap[n] == RowOf(s, n))
  }

  /** The body of the `forEach` callback. */
  function AddPlay(rowMap: map<string, SongRow>, e: SongEvent): map<string, SongRow>
  {
    var withRow := if e.track in rowMap then rowMap else rowMap[e.track := SongRow(e.track, e.album, e.artist, 0, 0)];
    withRow[e.track := withRow[e.track].(ms := withRow[e.track].ms + PlayedMs(e), count := withRow[e.track].count + 1)]
  }

  /** The new key, if any, goes to the end of the insertion order. */
  lemma FirstSeenAppend(s: seq<SongEvent>, e: SongEvent)
    ensures FirstSeenNames(s + [e]) ==
      if e.track in TrackNames(s) then FirstSeenNames(s) else FirstSeenNames(s) + [e.track]
  {
    TrackNamesAppend(s, e);
    assert (TrackNames(s) + [e.track])[..|TrackNames(s)|] == TrackNames(s);
  }

  lemma AddPlayKeys(rowMap: map<string, SongRow>, e: SongEvent)
    ensures forall n :: n in AddPlay(rowMap, e) <==> n in rowMap || n == e.track
  {
  }

  lemma FoldStep(rowMap: map<string, SongRow>, order: seq<string>, s: seq<SongEvent>, e: SongEvent)
    requires Folded(rowMap, order, s)
    ensures Folded(AddPlay(rowMap, e), if e.track in rowMap then order else order + [e.track], s + [e])
  {
    FirstSeenAppend(s, e);
    AddPlayKeys(rowMap, e);
    TrackNamesAppend(s, e);
    forall n | n in TrackNames(s + [e])
      ensures n in AddPlay(rowMap, e) && AddPlay(rowMap, e)[n] == RowOf(s + [e], n)
    {
      RowOfAppend(s, e, n);
    }
  }

  /** `Object.values(rowMap)`, listed in key insertion order. */
  function Values(rowMap: map<string, SongRow>, order: seq<string>): (r: seq<SongRow>)
    requires forall n :: n in order ==> n in rowMap
  {
    seq(|order|, k requires 0 <= k < |order| => rowMap[order[k]])
  }

  lemma FoldedValues(rowMap: map<string, SongRow>, order: seq<string>, s: seq<SongEvent>)
    requires Folded(rowMap, order, s)
    ensures forall n :: n in order ==> n in rowMap
    ensures Values(rowMap, order) == RowsFor(s, FirstSeenNames(s))
  {
  }

  /** `getSongRows`: the `forEach` that fills `rowMap`, `Object.values`, and
      the sort. */
  method GetSongRows(events: seq<SongEvent>) returns (rows: seq<SongRow>)
    ensures rows == SongRowsOf(events)
  {
    var rowMap: map<string, SongRow> := map[];
    var order: seq<string> := [];
    var i := 0;
    while i < |events|
      invariant 0 <= i <= |events|
      invariant Folded(rowMap, order, events[..i])
    {
      var e := events[i];
      assert events[..i + 1] == events[..i] + [e];
      FoldStep(rowMap, order, events[..i], e);
      if e.track !in rowMap {
        order := order + [e.track];
      }
      rowMap := AddPlay(rowMap, e);
      i := i + 1;
    }
    assert events[..i] == events;
    FoldedValues(rowMap, order, events);
    var values := Values(rowMap, order);
    rows := Sort(MoreCount, values);
  }

  /** The number of plays of `name` is the number of times it occurs among
      the track names. */
  lemma {:induction false} PlayCount(events: seq<SongEvent>, name: string)
    ensures |PlaysOf(events, name)| == multiset(TrackNames(events))[name]
  {
    if events != [] {
      var e, t := events[0], events[1..];
      assert events == [e] + t;
      assert TrackNames(events) == [e.track] + TrackNames(t);
      PlayCount(t, name);
    }
  }

  /** The first play of `name` is the event where the name first occurs. */
  lemma {:induction false} FirstPlay(events: seq<SongEvent>, name: string)
    requires name in TrackNames(events)
    ensures PlaysOf(events, name) != []
    ensures PlaysOf(events, name)[0] == events[FirstIndex(TrackNames(events), name)]
  {
    PlaysNonEmpty(events, name);
    var e, t := events[0], events[1..];
    assert TrackNames(events) == [e.track] + TrackNames(t);
    if e.track != name {
      assert TrackNames(events)[1..] == TrackNames(t);
      FirstPlay(t, name);
    }
  }

  /** A row counts the plays of its track, adds up exactly their play time,
      and keeps the album and artist of the first play: a later play of the
      same name never overwrites them. */
  lemma RowOfStatistics(events: seq<SongEvent>, name: string)
    requires name in TrackNames(events)
    ensures RowOf(events, name).name == name
    ensures RowOf(events, name).count == multiset(TrackNames(events))[name] >= 1
    ensures RowOf(events, name).ms == TotalMs(Filter(NameIs(name), events))
    ensures var first := events[FirstIndex(TrackNames(events), name)];
      RowOf(events, name).album == first.album && RowOf(events, name).artist == first.artist
  {
    PlayCount(events, name);
    FirstPlay(events, name);
  }

  function RowNames(rows: seq<SongRow>): (r: seq<string>)
    ensures |r| == |rows|
  {
    seq(|rows|, i requires 0 <= i < |rows| => rows[i].name)
  }

  lemma StrictMoreCount()
    ensures StrictOrder(MoreCount)
  {
  }

  lemma SongRowsAreRows(events: seq<SongEvent>)
    ensures forall r :: r in SongRowsOf(events) ==> r.name in TrackNames(events) && r == RowOf(events, r.name)
  {
    var values := RowsFor(events, FirstSeenNames(events));
    forall r | r in SongRowsOf(events)
      ensures r.name in TrackNames(events) && r == RowOf(events, r.name)
    {
      assert r in multiset(values);
    }
  }

  lemma SongRowsCoverNames(events: seq<SongEvent>)
    ensures forall n :: n in TrackNames(events) ==> n in RowNames(SongRowsOf(events))
  {
    var names := FirstSeenNames(events);
    var values := RowsFor(events, names);
    var rows := SongRowsOf(events);
    forall n | n in TrackNames(events)
      ensures n in RowNames(rows)
    {
      var k :| 0 <= k < |names| && names[k] == n;
      assert values[k] in multiset(rows);
      var i :| 0 <= i < |rows| && rows[i] == values[k];
      assert RowNames(rows)[i] == n;
    }
  }

  lemma RowsForDistinct(events: seq<SongEvent>)
    ensures NoDuplicates(RowsFor(events, FirstSeenNames(events)))
  {
    var names := FirstSeenNames(events);
    var values := RowsFor(events, names);
    forall i, j | 0 <= i < j < |values|
      ensures values[i] != values[j]
    {
      assert values[i].name == names[i] && values[j].name == names[j];
    }
  }

  /** `getSongRows` yields exactly one row per distinct track name, and that
      row is the track's finished row. */
  lemma SongRowsOnePerTrack(events: seq<SongEvent>)
    ensures |SongRowsOf(events)| == |FirstSeenNames(events)|
    ensures forall n :: n in RowNames(SongRowsOf(events)) <==> n in TrackNames(events)
    ensures NoDuplicates(RowNames(SongRowsOf(events)))
    ensures forall r :: r in SongRowsOf(events) ==> r.name in TrackNames(events) && r == RowOf(events, r.name)
  {
    var values := RowsFor(events, FirstSeenNames(events));
    var rows := SongRowsOf(events);
    assert |multiset(rows)| == |multiset(values)|;
    SongRowsAreRows(events);
    SongRowsCoverNames(events);
    RowsForDistinct(events);
    NoDuplicatesPermutation(values, rows);
    forall i, j | 0 <= i < j < |rows|
      ensures RowNames(rows)[i] != RowNames(rows)[j]
    {
      assert rows[i] in rows && rows[j] in rows;
    }
    forall n | n in RowNames(rows)
      ensures n in TrackNames(events)
    {
      var i :| 0 <= i < |rows| && RowNames(rows)[i] == n;
      assert rows[i] in rows;
    }
  }

  /** The rows are ordered by play count, highest first. */
  lemma SongRowsSortedByCount(events: seq<SongEvent>)
    ensures forall i, j :: 0 <= i < j < |SongRowsOf(events)| ==>
      SongRowsOf(events)[i].count >= SongRowsOf(events)[j].count
  {
    StrictMoreCount();
    SortIsSorted(MoreCount, RowsFor(events, FirstSeenNames(events)));
  }

  /** Rows with equal counts are listed in order of `key`. */
  ghost predicate TiesOrdered(key: SongRow -> int, s: seq<SongRow>)
  {
    forall i, j :: 0 <= i < j < |s| && s[i].count == s[j].count ==> key(s[i]) < key(s[j])
  }

  lemma ConsTies(key: SongRow -> int, a: SongRow, rest: seq<SongRow>)
    requires TiesOrdered(key, rest)
    requires forall y :: y in rest && y.count == a.count ==> key(a) < key(y)
    ensures TiesOrdered(key, [a] + rest)
  {
    var r := [a] + rest;
    forall i, j | 0 <= i < j < |r| && r[i].count == r[j].count
      ensures key(r[i]) < key(r[j])
    {
      assert r[j] == rest[j - 1];
      if i > 0 {
        assert r[i] == rest[i - 1];
      }
    }
  }

  /** When `x` goes after the head of `s`, the head still precedes every
      row it ties with. */
  lemma InsertTiesHead(key: SongRow -> int, x: SongRow, s: seq<SongRow>)
    requires s != [] && TiesOrdered(key, s)
    requires forall y :: y in s ==> key(y) < key(x)
    ensures forall y :: y in Insert(MoreCount, x, s[1..]) && y.count == s[0].count ==> key(s[0]) < key(y)
  {
    var rest := Insert(MoreCount, x, s[1..]);
    forall y | y in rest && y.count == s[0].count
      ensures key(s[0]) < key(y)
    {
      assert y in multiset(s[1..]) + multiset{x};
      if y != x {
        var k :| 0 <= k < |s[1..]| && s[1..][k] == y;
        assert s[k + 1] == y;
      }
    }
  }

  lemma {:induction false} InsertKeepsTies(key: SongRow -> int, x: SongRow, s: seq<SongRow>)
    requires SortedBy(MoreCount, s) && TiesOrdered(key, s)
    requires forall y :: y in s ==> key(y) < key(x)
    ensures TiesOrdered(key, Insert(MoreCount, x, s))
  {
    if s == [] || MoreCount(x, s[0]) {
      forall y | y in s
        ensures y.count < x.count
      {
        var k :| 0 <= k < |s| && s[k] == y;
        assert k > 0 ==> !MoreCount(s[k], s[0]);
      }
      ConsTies(key, x, s);
    } else {
      assert TiesOrdered(key, s[1..]) by {
        forall i, j | 0 <= i < j < |s[1..]| && s[1..][i].count == s[1..][j].count
          ensures key(s[1..][i]) < key(s[1..][j])
        {
          assert s[1..][i] == s[i + 1] && s[1..][j] == s[j + 1];
        }
      }
      InsertKeepsTies(key, x, s[1..]);
      InsertTiesHead(key, x, s);
      ConsTies(key, s[0], Insert(MoreCount, x, s[1..]));
    }
  }

  /** Sorting rows listed in increasing `key` order keeps ties in that order:
      the sort is stable. */
  lemma {:induction false} SortKeepsTies(key: SongRow -> int, s: seq<SongRow>)
    requires forall i, j :: 0 <= i < j < |s| ==> key(s[i]) < key(s[j])
    ensures TiesOrdered(key, Sort(MoreCount, s))
  {
    if s != [] {
      var front, x := s[..|s| - 1], s[|s| - 1];
      SortKeepsTies(key, front);
      StrictMoreCount();
      SortIsSorted(MoreCount, front);
      forall y | y in Sort(MoreCount, front)
        ensures key(y) < key(x)
      {
        assert y in multiset(front);
      }
      InsertKeepsTies(key, x, Sort(MoreCount, front));
    }
  }

  /** The position where a row's name first occurs among the plays. */
  function FirstSeenRank(events: seq<SongEvent>): SongRow -> int
  {
    (r: SongRow) => if r.name in TrackNames(events) then FirstIndex(TrackNames(events), r.name) else 0
  }

  /** Rows with equal counts keep the order in which their names were first
      seen. */
  lemma SongRowsTiesFirstSeen(events: seq<SongEvent>)
    ensures forall r :: r in SongRowsOf(events) ==> r.name in TrackNames(events)
    ensures forall i, j :: 0 <= i < j < |SongRowsOf(events)| && SongRowsOf(events)[i].count == SongRowsOf(events)[j].count ==>
      FirstIndex(TrackNames(events), SongRowsOf(events)[i].name) < FirstIndex(TrackNames(events), SongRowsOf(events)[j].name)
  {
    SongRowsOnePerTrack(events);
    var names := FirstSeenNames(events);
    var values := RowsFor(events, names);
    var key := FirstSeenRank(events);
    DistinctFirstSeenOrder(TrackNames(events));
    forall i, j | 0 <= i < j < |values|
      ensures key(values[i]) < key(values[j])
    {
      assert values[i].name == names[i] && values[j].name == names[j];
    }
    SortKeepsTies(key, values);
    var rows := SongRowsOf(events);
    forall i, j | 0 <= i < j < |rows| && rows[i].count == rows[j].count
      ensures FirstIndex(TrackNames(events), rows[i].name) < FirstIndex(TrackNames(events), rows[j].name)
    {
      assert rows[i] in rows && rows[j] in rows;
      assert key(rows[i]) < key(rows[j]);
    }
  }

  function SumCounts(rows: seq<SongRow>): int
  {
    if rows == [] then 0 else rows[0].count + SumCounts(rows[1..])
  }

  function SumMs(rows: seq<SongRow>): int
  {
    if rows == [] then 0 else rows[0].ms + SumMs(rows[1..])
  }

  lemma {:induction false} SumsAppend(a: seq<SongRow>, b: seq<SongRow>)
    ensures SumCounts(a + b) == SumCounts(a) + SumCounts(b)
    ensures SumMs(a + b) == SumMs(a) + SumMs(b)
  {
    if a != [] {
      assert (a + b)[1..] == a[1..] + b;
      SumsAppend(a[1..], b);
    } else {
      assert a + b == b;
    }
  }

  lemma {:induction false} SumsInsert(x: SongRow, s: seq<SongRow>)
    ensures SumCounts(Insert(MoreCount, x, s)) == x.count + SumCounts(s)
    ensures SumMs(Insert(MoreCount, x, s)) == x.ms + SumMs(s)
  {
    if s != [] && !MoreCount(x, s[0]) {
      SumsInsert(x, s[1..]);
    }
  }

  lemma SumsLast(s: seq<SongRow>)
    requires s != []
    ensures SumCounts(s) == SumCounts(s[..|s| - 1]) + s[|s| - 1].count
    ensures SumMs(s) == SumMs(s[..|s| - 1]) + s[|s| - 1].ms
  {
    assert s == s[..|s| - 1] + [s[|s| - 1]];
    SumsAppend(s[..|s| - 1], [s[|s| - 1]]);
  }

  lemma {:induction false} SumsSort(s: seq<SongRow>)
    ensures SumCounts(Sort(MoreCount, s)) == SumCounts(s)
    ensures SumMs(Sort(MoreCount, s)) == SumMs(s)
  {
    if s != [] {
      var front := s[..|s| - 1];
      SumsSort(front);
      SumsInsert(s[|s| - 1], Sort(MoreCount, front));
      SumsLast(s);
    }
  }

  /** The plays counted, and their time added up, name by name over `names`. */
  function CountSum(names: seq<string>, events: seq<SongEvent>): int
  {
    if names == [] then 0
    else CountSum(names[..|names| - 1], events) + |PlaysOf(events, names[|names| - 1])|
  }

  function MsSum(names: seq<string>, events: seq<SongEvent>): int
  {
    if names == [] then 0
    else MsSum(names[..|names| - 1], events) + TotalMs(PlaysOf(events, names[|names| - 1]))
  }

  lemma {:induction false} SumsOfNoEvents(names: seq<string>)
    ensures CountSum(names, []) == 0 && MsSum(names, []) == 0
  {
    if names != [] {
      SumsOfNoEvents(names[..|names| - 1]);
    }
  }

  /** The plays of `n` among `[e] + t`. */
  lemma PlaysOfCons(e: SongEvent, t: seq<SongEvent>, n: string)
    ensures |PlaysOf([e] + t, n)| == (if e.track == n then 1 else 0) + |PlaysOf(t, n)|
    ensures TotalMs(PlaysOf([e] + t, n)) == (if e.track == n then PlayedMs(e) else 0) + TotalMs(PlaysOf(t, n))
  {
    assert ([e] + t)[0] == e && ([e] + t)[1..] == t;
    var head := if e.track == n then [e] else [];
    assert PlaysOf([e] + t, n) == head + PlaysOf(t, n);
    TotalMsAppend(head, PlaysOf(t, n));
  }

  lemma {:induction false} SumsStep(names: seq<string>, e: SongEvent, t: seq<SongEvent>)
    requires NoDuplicates(names)
    ensures CountSum(names, [e] + t) == CountSum(names, t) + if e.track in names then 1 else 0
    ensures MsSum(names, [e] + t) == MsSum(names, t) + if e.track in names then PlayedMs(e) else 0
  {
    if names != [] {
      var front, n := names[..|names| - 1], names[|names| - 1];
      assert names == front + [n];
      SumsStep(front, e, t);
      PlaysOfCons(e, t, n);
    }
  }

  /** Over a list of distinct names that covers every play, each play is
      counted once and its time added once. */
  lemma {:induction false} SumsCover(names: seq<string>, events: seq<SongEvent>)
    requires NoDuplicates(names)
    requires forall k :: 0 <= k < |events| ==> events[k].track in names
    ensures CountSum(names, events) == |events|
    ensures MsSum(names, events) == TotalMs(events)
  {
    if events == [] {
      SumsOfNoEvents(names);
    } else {
      var e, t := events[0], events[1..];
      assert events == [e] + t;
      SumsCover(names, t);
      SumsStep(names, e, t);
    }
  }

  lemma {:induction false} SumsOfRows(names: seq<string>, events: seq<SongEvent>)
    requires forall n :: n in names ==> n in TrackNames(events)
    ensures SumCounts(RowsFor(events, names)) == CountSum(names, events)
    ensures SumMs(RowsFor(events, names)) == MsSum(names, events)
  {
    if names != [] {
      var front, n := names[..|names| - 1], names[|names| - 1];
      SumsOfRows(front, events);
      assert RowsFor(events, names) == RowsFor(events, front) + [RowOf(events, n)];
      SumsAppend(RowsFor(events, front), [RowOf(events, n)]);
    }
  }

  /** Every play is counted in exactly one row: the counts add up to the
      number of plays, and the rows' play times to the total play time. */
  lemma SongRowsTotals(events: seq<SongEvent>)
    ensures SumCounts(SongRowsOf(events)) == |events|
    ensures SumMs(SongRowsOf(events)) == TotalMs(events)
  {
    var names := FirstSeenNames(events);
    forall k | 0 <= k < |events|
      ensures events[k].track in names
    {
      assert TrackNames(events)[k] == events[k].track;
    }
    SumsCover(names, events);
    SumsOfRows(names, events);
    SumsSort(RowsFor(events, names));
  }
}
