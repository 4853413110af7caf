/** How loaded records are split into song plays and episode plays
    (`isSongStream`, `isEpisodeStream` and the loop of `onStreamsLoaded` in
    components/HomeContent.tsx). A record with the three song strings is a
    song; otherwise one with the two episode strings is an episode; any other
    record is dropped. */
module Classification {
  import opened Types
  import opened Seqs

  predicate IsSongStream(s: ExtendedStream)
  {
    && HasString(s.fields, "master_metadata_track_name")
    && HasString(s.fields, "master_metadata_album_artist_name")
    && HasString(s.fields, "master_metadata_album_album_name")
  }

  predicate IsEpisodeStream(s: ExtendedStream)
  {
    HasString(s.fields, "episode_name") && HasString(s.fields, "episode_show_name")
  }

  /** The records that end up as episodes: the song test is made first. */
  predicate IsEpisodeOnly(s: ExtendedStream)
  {
    !IsSongStream(s) && IsEpisodeStream(s)
  }

  /** The records neither collection receives. */
  predicate IsUnclassified(s: ExtendedStream)
  {
    !IsSongStream(s) && !IsEpisodeStream(s)
  }

  /** The song event pushed for a song record. */
  function ToSong(s: ExtendedStream): SongEvent
    requires IsSongStream(s)
  {
    SongEvent(
      s.ts,
      Member(s.fields, "platform"),
      Member(s.fields, "ms_played"),
      s.fields["master_metadata_track_name"].str,
      s.fields["master_metadata_album_artist_name"].str,
      s.fields["master_metadata_album_album_name"].str)
  }

  /** The episode event pushed for an episode record. */
  function ToEpisode(s: ExtendedStream): EpisodeEvent
    requires IsEpisodeStream(s)
  {
    EpisodeEvent(
      s.ts,
      Member(s.fields, "platform"),
      Member(s.fields, "ms_played"),
      s.fields["episode_name"].str,
      s.fields["episode_show_name"].str)
  }

  /** The song collection built from `streams`. */
  function SongsOf(streams: seq<ExtendedStream>): seq<SongEvent>
  {
    if streams == [] then []
    else
      var last := streams[|streams| - 1];
      SongsOf(streams[..|streams| - 1]) + if IsSongStream(last) then [ToSong(last)] else []
  }

  /** The episode collection built from `streams`. */
  function EpisodesOf(streams: seq<ExtendedStream>): seq<EpisodeEvent>
  {
    if streams == [] then []
    else
      var last := streams[|streams| - 1];
      EpisodesOf(streams[..|streams| - 1]) + if IsEpisodeOnly(last) then [ToEpisode(last)] else []
  }

  /** The songs are the song-shaped records, converted one by one, in input
      order. */
  lemma {:induction false} SongsAreSongRecords(streams: seq<ExtendedStream>)
    ensures |SongsOf(streams)| == |Filter(IsSongStream, streams)|
    ensures forall i :: 0 <= i < |SongsOf(streams)| ==>
      IsSongStream(Filter(IsSongStream, streams)[i]) &&
      SongsOf(streams)[i] == ToSong(Filter(IsSongStream, streams)[i])
  {
    if streams != [] {
      var front, last := streams[..|streams| - 1], streams[|streams| - 1];
      assert streams == front + [last];
      SongsAreSongRecords(front);
      FilterConcat(IsSongStream, front, [last]);
      var kept := Filter(IsSongStream, front);
      var added := if IsSongStream(last) then [last] else [];
      assert Filter(IsSongStream, [last]) == added;
      assert Filter(IsSongStream, streams) == kept + added;
      forall i | 0 <= i < |SongsOf(streams)|
        ensures IsSongStream(Filter(IsSongStream, streams)[i])
        ensures SongsOf(streams)[i] == ToSong(Filter(IsSongStream, streams)[i])
      {
        if i < |SongsOf(front)| {
          assert SongsOf(streams)[i] == SongsOf(front)[i];
          assert Filter(IsSongStream, streams)[i] == kept[i];
        } else {
          assert Filter(IsSongStream, streams)[i] == last;
        }
      }
    }
  }

  /** The episodes are the records that have the episode strings but not the
      song strings, converted one by one, in input order. */
  lemma {:induction false} EpisodesAreEpisodeRecords(streams: seq<ExtendedStream>)
    ensures |EpisodesOf(streams)| == |Filter(IsEpisodeOnly, streams)|
    ensures forall i :: 0 <= i < |EpisodesOf(streams)| ==>
      IsEpisodeStream(Filter(IsEpisodeOnly, streams)[i]) &&
      EpisodesOf(streams)[i] == ToEpisode(Filter(IsEpisodeOnly, streams)[i])
  {
    if streams != [] {
      var front, last := streams[..|streams| - 1], streams[|streams| - 1];
      assert streams == front + [last];
      EpisodesAreEpisodeRecords(front);
      FilterConcat(IsEpisodeOnly, front, [last]);
      var kept := Filter(IsEpisodeOnly, front);
      var added := if IsEpisodeOnly(last) then [last] else [];
      assert Filter(IsEpisodeOnly, [last]) == added;
      assert Filter(IsEpisodeOnly, streams) == kept + added;
      forall i | 0 <= i < |EpisodesOf(streams)|
        ensures IsEpisodeStream(Filter(IsEpisodeOnly, streams)[i])
        ensures EpisodesOf(streams)[i] == ToEpisode(Filter(IsEpisodeOnly, streams)[i])
      {
        if i < |EpisodesOf(front)| {
          assert EpisodesOf(streams)[i] == EpisodesOf(front)[i];
          assert Filter(IsEpisodeOnly, streams)[i] == kept[i];
        } else {
          assert Filter(IsEpisodeOnly, streams)[i] == last;
        }
      }
    }
  }

  /** Every record goes to exactly one of songs, episodes and the dropped
      records, so the two collections together are never larger than the
      input, and are as large exactly when nothing is dropped. */
  lemma {:induction false} ClassificationPartitions(streams: seq<ExtendedStream>)
    ensures |SongsOf(streams)| + |EpisodesOf(streams)| + |Filter(IsUnclassified, streams)| == |streams|
  {
    if streams != [] {
      var front, last := streams[..|streams| - 1], streams[|streams| - 1];
      assert streams == front + [last];
      ClassificationPartitions(front);
      FilterConcat(IsUnclassified, front, [last]);
      assert Filter(IsUnclassified, [last]) == if IsUnclassified(last) then [last] else [];
      assert |SongsOf(streams)| == |SongsOf(front)| + if IsSongStream(last) then 1 else 0;
      assert |EpisodesOf(streams)| == |EpisodesOf(front)| + if IsEpisodeOnly(last) then 1 else 0;
    }
  }
}
