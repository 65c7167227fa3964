/** The older, unregistered callbacks: the individual playlist table and the
    artist table grouped by the raw artist text, with the same inclusive
    date filter as the dashboard. The shared data and the playlist query are
    parameters. */
module Callbacks {
  import opened Seqs
  import opened Grouping
  import opened Dates
  import opened Database
  import opened Shared
  import opened Tables
  import opened Aggregate

  // ---------------------------------------------------------------------
  // update_individual_playlist

  /** Python's truth value of the dropdown value: nothing selected, or the
      falsy id 0. */
  predicate NoneSelected(selected: Option<int>)
  {
    selected.None? || selected.value == 0
  }

  /** `update_individual_playlist`: nothing for no selection; otherwise the
      playlist's tracks in query order with each duration formatted, or
      "N/A" for a missing one. */
  function IndividualPlaylist(selected: Option<int>, tracksFor: int -> seq<Track>): (r: seq<TrackRow>)
    ensures NoneSelected(selected) ==> r == []
    ensures !NoneSelected(selected) ==>
      var tracks := tracksFor(selected.value);
      && |r| == |tracks|
      && forall i :: 0 <= i < |r| ==>
           && r[i].artist == tracks[i].artist && r[i].title == tracks[i].title
           && r[i].album == tracks[i].album && r[i].rating == tracks[i].rating
           && (tracks[i].duration.None? <==> r[i].duration == "N/A")
  {
    if NoneSelected(selected) then [] else Map(tracksFor(selected.value), FormatTrack)
  }

  /** Each shown duration reads back as the whole seconds of the track. */
  lemma IndividualPlaylistDurations(selected: Option<int>, tracksFor: int -> seq<Track>, i: nat)
    requires !NoneSelected(selected)
    requires i < |tracksFor(selected.value)|
    requires tracksFor(selected.value)[i].duration.Some?
    ensures var r := IndividualPlaylist(selected, tracksFor);
      ParseClock(r[i].duration) == Some(Trunc(tracksFor(selected.value)[i].duration.value))
  {
  }

  // ---------------------------------------------------------------------
  // update_artist_played_table

  /** The raw artist text of a row: this table does not split artists. */
  function RawArtist(r: Row): string
  {
    r.track.artist
  }

  function RowTitle(r: Row): string
  {
    r.track.title
  }

  /** The rows of the selected sets that pass the date filter. */
  function PlayedRows(ids: seq<int>, start: Option<Date>, end: Option<Date>,
                      m: map<int, Option<Date>>, tracksFor: int -> seq<Track>): (r: seq<Row>)
    ensures |r| == SumOf(FilterByDate(ids, m, start, end), TrackCount(tracksFor))
  {
    CollectRows(FilterByDate(ids, m, start, end), m, tracksFor)
  }

  /** `update_artist_played_table`: nothing for no selection; otherwise the
      selected sets with a date inside the inclusive bounds, their tracks
      grouped by the raw artist text, one row per artist with its plays and
      distinct titles, the most played first. The rank field is not part of
      this table. */
  function ArtistPlayedTable(selected: Option<seq<int>>, start: Option<Date>, end: Option<Date>,
                             m: map<int, Option<Date>>, tracksFor: int -> seq<Track>): (r: seq<ArtistPlays>)
    ensures selected.None? || |selected.value| == 0 ==> r == []
    ensures selected.Some? ==> IsTally(r, PlayedRows(selected.value, start, end, m, tracksFor), RawArtist, RowTitle)
  {
    if selected.None? || |selected.value| == 0 then []
    else ArtistTally(PlayedRows(selected.value, start, end, m, tracksFor))
  }

  /** The tally by raw artist text, empty for no rows. */
  function ArtistTally(rows: seq<Row>): (r: seq<ArtistPlays>)
    ensures IsTally(r, rows, RawArtist, RowTitle)
  {
    if |rows| == 0 then
      assert SumOf([], Plays) == 0;
      []
    else TallyBy(rows, RawArtist, RowTitle)
  }

  /** The table's artists are exactly the raw artist texts of the collected
      rows. */
  lemma ArtistPlayedRawArtists(selected: seq<int>, start: Option<Date>, end: Option<Date>,
                               m: map<int, Option<Date>>, tracksFor: int -> seq<Track>, a: string)
    ensures var rows := PlayedRows(selected, start, end, m, tracksFor);
      var r := ArtistPlayedTable(Some(selected), start, end, m, tracksFor);
      a in Artists(r) <==> exists k :: 0 <= k < |rows| && rows[k].track.artist == a
  {
    TallyArtists(ArtistPlayedTable(Some(selected), start, end, m, tracksFor),
                 PlayedRows(selected, start, end, m, tracksFor), a);
  }

  /** A tally by raw artist lists exactly the raw artists of its rows. */
  lemma TallyArtists(r: seq<ArtistPlays>, rows: seq<Row>, a: string)
    requires IsTally(r, rows, RawArtist, RowTitle)
    ensures a in Artists(r) <==> exists k :: 0 <= k < |rows| && rows[k].track.artist == a
  {
    if a in Artists(r) {
      var i :| 0 <= i < |r| && Artists(r)[i] == a;
      assert TalliesRows(r[i], rows, RawArtist, RowTitle);
      SelectWitness(rows, RawArtist, a);
    }
    if exists k :: 0 <= k < |rows| && rows[k].track.artist == a {
      var k :| 0 <= k < |rows| && rows[k].track.artist == a;
      assert RawArtist(rows[k]) in Artists(r);
    }
  }

  /** Sets with no date, or dated outside the bounds, contribute nothing. */
  lemma ArtistPlayedNoSetInWindow(selected: seq<int>, start: Option<Date>, end: Option<Date>,
                                  m: map<int, Option<Date>>, tracksFor: int -> seq<Track>)
    requires forall i :: 0 <= i < |selected| ==> !InWindow(DateOf(m, selected[i]), start, end)
    ensures ArtistPlayedTable(Some(selected), start, end, m, tracksFor) == []
  {
  }
}
