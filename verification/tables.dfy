/** The tables of the aggregate dashboard, computed from the collected track
    rows: the played-songs table (one row per artist and title, with play
    count, dates and best rating, ranked by plays), the per-artist tally of
    plays against distinct titles, the most played artist and song, and the
    library artists never played. */
module Tables {
  import opened Seqs
  import opened Text
  import opened Sorting
  import opened Grouping
  import opened Dates
  import opened Database

  /** A collected track with the date of the set it was played in
      (`track["set_date"]`). */
  datatype Row = Row(track: Track, setDate: Option<Date>)

  function ArtistTitle(r: Row): (string, string)
  {
    (r.track.artist, r.track.title)
  }

  function SetDateOf(r: Row): Option<Date>
  {
    r.setDate
  }

  /** pandas `max` over the rating column: missing ratings are skipped and
      a group with none at all has none. */
  function MaxRating(rows: seq<Row>): (r: Option<int>)
    ensures r.None? <==> forall i :: 0 <= i < |rows| ==> rows[i].track.rating.None?
    ensures r.Some? ==> exists i :: 0 <= i < |rows| && rows[i].track.rating == r
    ensures r.Some? ==> forall i :: 0 <= i < |rows| && rows[i].track.rating.Some? ==>
      rows[i].track.rating.value <= r.value
  {
    if |rows| == 0 then None
    else
      var rest := MaxRating(rows[1..]);
      var here := rows[0].track.rating;
      assert forall i :: 1 <= i < |rows| ==> rows[i] == rows[1..][i - 1];
      if here.None? then rest
      else if rest.None? then here
      else if here.value >= rest.value then here
      else rest
  }

  // ---------------------------------------------------------------------
  // played-songs table

  /** A row of the played-songs table, columns in display order. */
  datatype PlayedSong = PlayedSong(rank: nat, timesPlayed: nat, song: string, artists: string,
                                   dates: string, rating: Option<int>)

  function SongOf(p: PlayedSong): (string, string)
  {
    (p.artists, p.song)
  }

  function TimesPlayed(p: PlayedSong): int
  {
    p.timesPlayed
  }

  /** The aggregation of one `(artist, title)` group. */
  function SongSummary(g: Group<(string, string), Row>): PlayedSong
  {
    PlayedSong(0, |g.rows|, g.key.1, g.key.0, JoinDates(Map(g.rows, SetDateOf)), MaxRating(g.rows))
  }

  function SongSummaries(gs: seq<Group<(string, string), Row>>): (r: seq<PlayedSong>)
    ensures |r| == |gs|
    ensures forall i :: 0 <= i < |gs| ==> r[i] == SongSummary(gs[i])
    ensures SumOf(r, TimesPlayed) == SumOf(gs, GroupSize)
  {
    if |gs| == 0 then [] else [SongSummary(gs[0])] + SongSummaries(gs[1..])
  }

  /** `sort_values("Times Played", ascending=False)`. */
  predicate MorePlayed(a: PlayedSong, b: PlayedSong)
  {
    a.timesPlayed >= b.timesPlayed
  }

  lemma MorePlayedTotal()
    ensures TotalPreorder(MorePlayed)
  {
  }

  /** `insert(0, "Rank", index + 1)`. */
  function RankSongs(s: seq<PlayedSong>): (r: seq<PlayedSong>)
    ensures |r| == |s|
    ensures forall i :: 0 <= i < |s| ==> r[i] == s[i].(rank := i + 1)
  {
    seq(|s|, i requires 0 <= i < |s| => s[i].(rank := i + 1))
  }

  /** The `(artist, title)` keys of a table, in its order. */
  function Songs(r: seq<PlayedSong>): (ks: seq<(string, string)>)
    ensures |ks| == |r|
  {
    Map(r, SongOf)
  }

  /** The rows of a song, as the group for its key holds them. */
  predicate SummarizesRows(p: PlayedSong, rows: seq<Row>)
  {
    var sel := Select(rows, ArtistTitle, SongOf(p));
    && p.timesPlayed == |sel| > 0
    && p.rating == MaxRating(sel)
    && p.dates == JoinDates(Map(sel, SetDateOf))
  }

  /** The played-songs table: one row per distinct `(artist, title)`
      holding its play count, its set dates and its best rating, ordered by
      play count with the most played first and ranked 1..n. The play
      counts add up to the number of rows. */
  function PlayedSongsTable(rows: seq<Row>): (r: seq<PlayedSong>)
    ensures |r| == CountDistinct(rows, ArtistTitle)
    ensures forall i :: 0 <= i < |r| ==> r[i].rank == i + 1
    ensures forall i, j :: 0 <= i < j < |r| ==> r[i].timesPlayed >= r[j].timesPlayed
    ensures forall i :: 0 <= i < |r| ==> SummarizesRows(r[i], rows)
    ensures DistinctBy(r, SongOf)
    ensures forall k :: 0 <= k < |rows| ==> ArtistTitle(rows[k]) in Songs(r)
    ensures SumOf(r, TimesPlayed) == |rows|
  {
    var gs := GroupBy(rows, ArtistTitle);
    var sums := SongSummaries(gs);
    SummariesDistinct(gs, sums);
    SummariesSummarize(rows, gs, sums);
    SummariesCover(rows, gs, sums);
    RankedTable(rows, sums);
    RankSongs(Sort(sums, MorePlayed))
  }

  lemma KeyOfSummary(g: Group<(string, string), Row>)
    ensures SongOf(SongSummary(g)) == g.key
  {
  }

  /** Distinct groups give distinct songs. */
  lemma SummariesDistinct(gs: seq<Group<(string, string), Row>>, sums: seq<PlayedSong>)
    requires DistinctBy(gs, GroupKey) && sums == SongSummaries(gs)
    ensures DistinctBy(sums, SongOf)
  {
    forall i, j | 0 <= i < j < |sums|
      ensures SongOf(sums[i]) != SongOf(sums[j])
    {
      KeyOfSummary(gs[i]);
      KeyOfSummary(gs[j]);
      assert GroupKey(gs[i]) != GroupKey(gs[j]);
    }
  }

  /** The summary of a group of exactly one song's rows summarises that song. */
  lemma SummariesSummarize(rows: seq<Row>, gs: seq<Group<(string, string), Row>>, sums: seq<PlayedSong>)
    requires SelectsRows(gs, rows, ArtistTitle) && sums == SongSummaries(gs)
    ensures forall i :: 0 <= i < |sums| ==> SummarizesOf(rows)(sums[i])
  {
    forall i | 0 <= i < |sums|
      ensures SummarizesOf(rows)(sums[i])
    {
      KeyOfSummary(gs[i]);
      assert gs[i].rows == Select(rows, ArtistTitle, gs[i].key);
    }
  }

  /** Every row's song has a summary. */
  lemma SummariesCover(rows: seq<Row>, gs: seq<Group<(string, string), Row>>, sums: seq<PlayedSong>)
    requires CoversRows(gs, rows, ArtistTitle) && sums == SongSummaries(gs)
    ensures forall k :: 0 <= k < |rows| ==> ArtistTitle(rows[k]) in Songs(sums)
  {
    forall k | 0 <= k < |rows|
      ensures ArtistTitle(rows[k]) in Songs(sums)
    {
      var x := ArtistTitle(rows[k]);
      var j :| 0 <= j < |gs| && gs[j].key == x;
      KeyOfSummary(gs[j]);
      assert Songs(sums)[j] == x;
    }
  }

  function SummarizesOf(rows: seq<Row>): (p: PlayedSong -> bool)
  {
    (x: PlayedSong) => SummarizesRows(x, rows)
  }

  /** Sorting by play count and ranking keeps what the summaries say. */
  lemma RankedTable(rows: seq<Row>, sums: seq<PlayedSong>)
    requires forall i :: 0 <= i < |sums| ==> SummarizesOf(rows)(sums[i])
    requires DistinctBy(sums, SongOf)
    requires forall k :: 0 <= k < |rows| ==> ArtistTitle(rows[k]) in Songs(sums)
    ensures var r := RankSongs(Sort(sums, MorePlayed));
      && |r| == |sums|
      && (forall i, j :: 0 <= i < j < |r| ==> r[i].timesPlayed >= r[j].timesPlayed)
      && (forall i :: 0 <= i < |r| ==> SummarizesRows(r[i], rows))
      && DistinctBy(r, SongOf)
      && (forall k :: 0 <= k < |rows| ==> ArtistTitle(rows[k]) in Songs(r))
      && SumOf(r, TimesPlayed) == SumOf(sums, TimesPlayed)
  {
    var sorted := Sort(sums, MorePlayed);
    MorePlayedTotal();
    SortSorted(sums, MorePlayed);
    SortSum(sums, MorePlayed, TimesPlayed);
    SortDistinct(sums, MorePlayed, SongOf);
    SortKeepsAll(sums, MorePlayed, SummarizesOf(rows));
    SortMultiset(sums, MorePlayed);
    MapPermutation(sums, sorted, SongOf);
    assert forall x :: x in Songs(sums) ==> x in Songs(sorted) by {
      forall x | x in Songs(sums)
        ensures x in Songs(sorted)
      {
        assert x in multiset(Songs(sums));
      }
    }
    RankKeepsOrder(sorted);
    RankKeepsSummaries(rows, sorted);
    RankKeepsSongs(sorted);
  }

  /** Numbering the rows changes nothing else about them. */
  lemma RankKeepsOrder(sorted: seq<PlayedSong>)
    requires SortedBy(sorted, MorePlayed)
    ensures var r := RankSongs(sorted);
      && (forall i, j :: 0 <= i < j < |r| ==> r[i].timesPlayed >= r[j].timesPlayed)
      && SumOf(r, TimesPlayed) == SumOf(sorted, TimesPlayed)
  {
    var r := RankSongs(sorted);
    SumOfPointwise(r, sorted, TimesPlayed);
  }

  lemma RankKeepsSummaries(rows: seq<Row>, sorted: seq<PlayedSong>)
    requires forall i :: 0 <= i < |sorted| ==> SummarizesOf(rows)(sorted[i])
    ensures var r := RankSongs(sorted);
      forall i :: 0 <= i < |r| ==> SummarizesRows(r[i], rows)
  {
    var r := RankSongs(sorted);
    forall i | 0 <= i < |r|
      ensures SummarizesRows(r[i], rows)
    {
      assert SummarizesOf(rows)(sorted[i]);
      assert SongOf(r[i]) == SongOf(sorted[i]);
    }
  }

  lemma RankKeepsSongs(sorted: seq<PlayedSong>)
    requires DistinctBy(sorted, SongOf)
    ensures DistinctBy(RankSongs(sorted), SongOf)
    ensures Songs(RankSongs(sorted)) == Songs(sorted)
  {
    var r := RankSongs(sorted);
    assert forall i :: 0 <= i < |r| ==> SongOf(r[i]) == SongOf(sorted[i]);
    assert Songs(r) == Songs(sorted);
  }

  // ---------------------------------------------------------------------
  // per-artist tally

  /** A row of an artist table: plays (rows) and distinct titles. */
  datatype ArtistPlays = ArtistPlays(rank: nat, artist: string, plays: nat, songs: nat)

  function ArtistOf(a: ArtistPlays): string
  {
    a.artist
  }

  function Plays(a: ArtistPlays): int
  {
    a.plays
  }

  /** `size` and `nunique` of the title over one artist's rows. */
  function Tallied<T>(g: Group<string, T>, title: T -> string): ArtistPlays
  {
    ArtistPlays(0, g.key, |g.rows|, CountDistinct(g.rows, title))
  }

  function TallyGroups<T>(gs: seq<Group<string, T>>, title: T -> string): (r: seq<ArtistPlays>)
    ensures |r| == |gs|
    ensures forall i :: 0 <= i < |gs| ==> r[i] == Tallied(gs[i], title)
    ensures SumOf(r, Plays) == SumOf(gs, GroupSize)
  {
    if |gs| == 0 then [] else [Tallied(gs[0], title)] + TallyGroups(gs[1..], title)
  }

  /** The artists of a tally, in its order. */
  function Artists(r: seq<ArtistPlays>): (ks: seq<string>)
    ensures |ks| == |r|
  {
    Map(r, ArtistOf)
  }

  predicate MorePlays(a: ArtistPlays, b: ArtistPlays)
  {
    a.plays >= b.plays
  }

  lemma MorePlaysTotal()
    ensures TotalPreorder(MorePlays)
  {
  }

  /** The rows of an artist, as the group for its key holds them. */
  predicate TalliesRows<T>(a: ArtistPlays, rows: seq<T>, key: T -> string, title: T -> string)
  {
    var sel := Select(rows, key, a.artist);
    && a.plays == |sel| > 0
    && a.songs == CountDistinct(sel, title)
  }

  /** `r` is a tally of `rows` by `key`: each entry counts the rows of its
      key and their distinct titles, which never exceed its plays; the most
      played come first; no key twice; every row's key present; the plays
      adding up to the number of rows. */
  predicate IsTally<T>(r: seq<ArtistPlays>, rows: seq<T>, key: T -> string, title: T -> string)
  {
    && (forall i :: 0 <= i < |r| ==> TalliesRows(r[i], rows, key, title) && r[i].songs <= r[i].plays)
    && (forall i, j :: 0 <= i < j < |r| ==> r[i].plays >= r[j].plays)
    && DistinctBy(r, ArtistOf)
    && (forall k :: 0 <= k < |rows| ==> key(rows[k]) in Artists(r))
    && SumOf(r, Plays) == |rows|
  }

  /** `groupby(key).agg(size, nunique(title))` sorted by plays, the most
      played first: one row per artist. */
  function TallyBy<T(==)>(rows: seq<T>, key: T -> string, title: T -> string): (r: seq<ArtistPlays>)
    ensures |r| == CountDistinct(rows, key)
    ensures IsTally(r, rows, key, title)
  {
    var gs := GroupBy(rows, key);
    var t := TallyGroups(gs, title);
    TalliedDistinct(gs, title, t);
    TalliedRows(rows, key, title, gs, t);
    TalliedCover(rows, key, title, gs, t);
    SortedTally(rows, key, title, t);
    Sort(t, MorePlays)
  }

  lemma ArtistOfTallied<T>(g: Group<string, T>, title: T -> string)
    ensures ArtistOf(Tallied(g, title)) == g.key
  {
  }

  lemma TalliedDistinct<T>(gs: seq<Group<string, T>>, title: T -> string, t: seq<ArtistPlays>)
    requires DistinctBy(gs, GroupKey) && t == TallyGroups(gs, title)
    ensures DistinctBy(t, ArtistOf)
  {
    forall i, j | 0 <= i < j < |t|
      ensures ArtistOf(t[i]) != ArtistOf(t[j])
    {
      ArtistOfTallied(gs[i], title);
      ArtistOfTallied(gs[j], title);
      assert GroupKey(gs[i]) != GroupKey(gs[j]);
    }
  }

  /** Each tally counts exactly its artist's rows. */
  lemma TalliedRows<T>(rows: seq<T>, key: T -> string, title: T -> string,
                       gs: seq<Group<string, T>>, t: seq<ArtistPlays>)
    requires SelectsRows(gs, rows, key) && t == TallyGroups(gs, title)
    ensures forall i :: 0 <= i < |t| ==> TalliesOf(rows, key, title)(t[i])
  {
    forall i | 0 <= i < |t|
      ensures TalliesOf(rows, key, title)(t[i])
    {
      ArtistOfTallied(gs[i], title);
      assert gs[i].rows == Select(rows, key, gs[i].key);
    }
  }

  /** Every row's artist has a tally. */
  lemma TalliedCover<T>(rows: seq<T>, key: T -> string, title: T -> string,
                        gs: seq<Group<string, T>>, t: seq<ArtistPlays>)
    requires CoversRows(gs, rows, key) && t == TallyGroups(gs, title)
    ensures forall k :: 0 <= k < |rows| ==> key(rows[k]) in Artists(t)
  {
    forall k | 0 <= k < |rows|
      ensures key(rows[k]) in Artists(t)
    {
      var x := key(rows[k]);
      var j :| 0 <= j < |gs| && gs[j].key == x;
      ArtistOfTallied(gs[j], title);
      assert Artists(t)[j] == x;
    }
  }

  /** A tally that counts its artist's rows, with no more titles than plays. */
  function TalliesOf<T>(rows: seq<T>, key: T -> string, title: T -> string): (p: ArtistPlays -> bool)
  {
    (a: ArtistPlays) => TalliesRows(a, rows, key, title) && a.songs <= a.plays
  }

  /** Sorting by plays keeps what the tallies say. */
  lemma SortedTally<T>(rows: seq<T>, key: T -> string, title: T -> string, t: seq<ArtistPlays>)
    requires forall i :: 0 <= i < |t| ==> TalliesOf(rows, key, title)(t[i])
    requires DistinctBy(t, ArtistOf)
    requires forall k :: 0 <= k < |rows| ==> key(rows[k]) in Artists(t)
    requires SumOf(t, Plays) == |rows|
    ensures IsTally(Sort(t, MorePlays), rows, key, title)
  {
    var r := Sort(t, MorePlays);
    SortedByPlays(t, r);
    SortSum(t, MorePlays, Plays);
    SortDistinct(t, MorePlays, ArtistOf);
    SortedTallyRows(rows, key, title, t, r);
    TallyOfParts(r, rows, key, title);
  }

  /** The parts of a tally make a tally. */
  lemma TallyOfParts<T>(r: seq<ArtistPlays>, rows: seq<T>, key: T -> string, title: T -> string)
    requires forall i :: 0 <= i < |r| ==> TalliesRows(r[i], rows, key, title) && r[i].songs <= r[i].plays
    requires forall i, j :: 0 <= i < j < |r| ==> r[i].plays >= r[j].plays
    requires DistinctBy(r, ArtistOf)
    requires forall k :: 0 <= k < |rows| ==> key(rows[k]) in Artists(r)
    requires SumOf(r, Plays) == |rows|
    ensures IsTally(r, rows, key, title)
  {
  }

  /** Sorting by `MorePlays` puts the most played first. */
  lemma SortedByPlays(t: seq<ArtistPlays>, r: seq<ArtistPlays>)
    requires r == Sort(t, MorePlays)
    ensures forall i, j :: 0 <= i < j < |r| ==> r[i].plays >= r[j].plays
  {
    MorePlaysTotal();
    SortSorted(t, MorePlays);
  }

  /** Sorting keeps every entry, so every entry still tallies its rows and
      every row's key still has an entry. */
  lemma SortedTallyRows<T>(rows: seq<T>, key: T -> string, title: T -> string, t: seq<ArtistPlays>, r: seq<ArtistPlays>)
    requires forall i :: 0 <= i < |t| ==> TalliesOf(rows, key, title)(t[i])
    requires forall k :: 0 <= k < |rows| ==> key(rows[k]) in Artists(t)
    requires r == Sort(t, MorePlays)
    ensures forall i :: 0 <= i < |r| ==> TalliesRows(r[i], rows, key, title) && r[i].songs <= r[i].plays
    ensures forall k :: 0 <= k < |rows| ==> key(rows[k]) in Artists(r)
  {
    SortKeepsAll(t, MorePlays, TalliesOf(rows, key, title));
    SortMultiset(t, MorePlays);
    MapPermutation(t, r, ArtistOf);
    forall x | x in Artists(t)
      ensures x in Artists(r)
    {
      assert x in multiset(Artists(t));
    }
    forall i | 0 <= i < |r|
      ensures TalliesRows(r[i], rows, key, title) && r[i].songs <= r[i].plays
    {
      assert TalliesOf(rows, key, title)(r[i]);
    }
  }

  /** The artist table's `insert(0, "Rank", index + 1)`: the twin of
      `RankSongs` over artist rows, a separate type with its own `rank`. */
  function RankArtists(s: seq<ArtistPlays>): (r: seq<ArtistPlays>)
    ensures |r| == |s|
    ensures forall i :: 0 <= i < |s| ==> r[i] == s[i].(rank := i + 1)
  {
    seq(|s|, i requires 0 <= i < |s| => s[i].(rank := i + 1))
  }

  /** Numbering a tally changes nothing else about it. */
  lemma RankedTally<T>(t: seq<ArtistPlays>, rows: seq<T>, key: T -> string, title: T -> string)
    requires IsTally(t, rows, key, title)
    ensures IsTally(RankArtists(t), rows, key, title)
  {
    var r := RankArtists(t);
    assert forall i :: 0 <= i < |r| ==> ArtistOf(r[i]) == ArtistOf(t[i]);
    assert Artists(r) == Artists(t);
    SumOfPointwise(r, t, Plays);
    forall i | 0 <= i < |r|
      ensures TalliesRows(r[i], rows, key, title)
    {
      assert TalliesRows(t[i], rows, key, title);
    }
  }

  // ---------------------------------------------------------------------
  // exploded artists

  /** A row of `df_exploded`: one credited artist of one track row. */
  datatype Credit = Credit(artist: string, row: Row)

  function CreditArtist(c: Credit): string
  {
    c.artist
  }

  function CreditTitle(c: Credit): string
  {
    c.row.track.title
  }

  /** The credits of one row: the non-empty names the splitter returns for
      its artist field, in order. */
  function Credits(row: Row, split: string -> seq<string>): (r: seq<Credit>)
    ensures forall i :: 0 <= i < |r| ==> r[i].row == row && r[i].artist != "" && r[i].artist in split(row.track.artist)
    ensures forall a :: a in split(row.track.artist) && a != "" ==> exists i :: 0 <= i < |r| && r[i].artist == a
    ensures "" !in Map(r, CreditArtist)
    ensures forall a :: a != "" ==> multiset(Map(r, CreditArtist))[a] == multiset(split(row.track.artist))[a]
  {
    var names := Filter(split(row.track.artist), NonEmpty);
    var r := Map(names, (a: string) => Credit(a, row));
    assert forall a :: a in split(row.track.artist) && NonEmpty(a) ==> a in names;
    assert Map(r, CreditArtist) == names;
    forall a | a != ""
      ensures multiset(names)[a] == multiset(split(row.track.artist))[a]
    {
      FilterCount(split(row.track.artist), NonEmpty, a);
    }
    r
  }

  /** `explode` of the split artist lists followed by dropping missing and
      empty names. */
  function Explode(rows: seq<Row>, split: string -> seq<string>): (r: seq<Credit>)
    ensures forall i :: 0 <= i < |r| ==>
      r[i].row in rows && r[i].artist != "" && r[i].artist in split(r[i].row.track.artist)
  {
    if |rows| == 0 then []
    else
      var rest := Explode(rows[1..], split);
      assert forall i :: 0 <= i < |rest| ==> rest[i].row in rows;
      Credits(rows[0], split) + rest
  }

  /** Explosion works row by row. */
  lemma {:induction false} ExplodeConcat(a: seq<Row>, b: seq<Row>, split: string -> seq<string>)
    ensures Explode(a + b, split) == Explode(a, split) + Explode(b, split)
  {
    if |a| == 0 {
      assert a + b == b;
    } else {
      assert (a + b)[1..] == a[1..] + b;
      ExplodeConcat(a[1..], b, split);
    }
  }

  /** Some credit names `a`. */
  predicate Credited(credits: seq<Credit>, a: string)
  {
    exists i :: 0 <= i < |credits| && credits[i].artist == a
  }

  /** Every non-empty name the splitter finds in some row is credited. */
  lemma {:induction false} ExplodeComplete(rows: seq<Row>, split: string -> seq<string>, k: nat, a: string)
    requires k < |rows| && a in split(rows[k].track.artist) && a != ""
    ensures Credited(Explode(rows, split), a)
  {
    var cs := Credits(rows[0], split);
    var rest := Explode(rows[1..], split);
    assert Explode(rows, split) == cs + rest;
    if k == 0 {
      assert Credited(cs, a);
    } else {
      ExplodeComplete(rows[1..], split, k - 1, a);
    }
    CreditedConcat(cs, rest, a);
  }

  lemma CreditedConcat(cs: seq<Credit>, rest: seq<Credit>, a: string)
    requires Credited(cs, a) || Credited(rest, a)
    ensures Credited(cs + rest, a)
  {
    if Credited(cs, a) {
      var i :| 0 <= i < |cs| && cs[i].artist == a;
      assert (cs + rest)[i] == cs[i];
    } else {
      var i :| 0 <= i < |rest| && rest[i].artist == a;
      assert (cs + rest)[|cs| + i] == rest[i];
    }
  }

  // ---------------------------------------------------------------------
  // top artist and top song

  /** `value_counts().idxmax()` of the credited artists: an artist credited
      at least as often as any other, or none when nobody is credited. */
  function TopArtist(credits: seq<Credit>): (r: Option<string>)
    ensures r.None? <==> |credits| == 0
    ensures r.Some? ==> exists i :: 0 <= i < |credits| && credits[i].artist == r.value
    ensures r.Some? ==> forall i :: 0 <= i < |credits| ==>
      |Select(credits, CreditArtist, credits[i].artist)| <= |Select(credits, CreditArtist, r.value)|
  {
    var gs := GroupBy(credits, CreditArtist);
    NoGroupsNoRows(gs, credits, CreditArtist);
    if |gs| == 0 then None
    else
      var k := ArgMax(gs, GroupSize);
      LargestGroup(gs, credits, CreditArtist, k);
      GroupWitness(gs, credits, CreditArtist, k);
      Some(gs[k].key)
  }

  /** A group's key is the key of one of the rows. */
  lemma GroupWitness<K, T>(gs: seq<Group<K, T>>, s: seq<T>, key: T -> K, k: nat)
    requires SelectsRows(gs, s, key) && k < |gs|
    ensures exists i :: 0 <= i < |s| && key(s[i]) == gs[k].key
  {
    var sel := Select(s, key, gs[k].key);
    assert gs[k].rows == sel && |sel| > 0;
    SelectIn(s, key, gs[k].key);
    assert sel[0] in s;
  }

  /** The most played `(artist, title)` and its play count. */
  datatype TopSongInfo = TopSongInfo(artist: string, title: string, count: nat)

  /** `groupby(["artist", "title"]).size()` sorted descending, first row:
      a song played at least as often as any other. */
  function TopSong(rows: seq<Row>): (r: Option<TopSongInfo>)
    ensures r.None? <==> |rows| == 0
    ensures r.Some? ==> r.value.count == |Select(rows, ArtistTitle, (r.value.artist, r.value.title))| > 0
    ensures r.Some? ==> forall i :: 0 <= i < |rows| ==>
      |Select(rows, ArtistTitle, ArtistTitle(rows[i]))| <= r.value.count
  {
    var gs := GroupBy(rows, ArtistTitle);
    NoGroupsNoRows(gs, rows, ArtistTitle);
    if |gs| == 0 then None
    else
      var k := ArgMax(gs, GroupSize);
      LargestGroup(gs, rows, ArtistTitle, k);
      var top := gs[k];
      assert top.rows == Select(rows, ArtistTitle, top.key) && |top.rows| > 0;
      assert top.key == (top.key.0, top.key.1);
      Some(TopSongInfo(top.key.0, top.key.1, |top.rows|))
  }

  /** The top-song card: `artist – title (count)`. */
  function TopSongText(t: Option<TopSongInfo>): string
  {
    match t
    case None => "-"
    case Some(s) => s.artist + " – " + s.title + " (" + NatToString(s.count) + ")"
  }

  /** The top song's count is the play count at the head of the played-songs
      table. */
  lemma TopSongHeadsTable(rows: seq<Row>)
    requires |rows| > 0
    ensures |PlayedSongsTable(rows)| > 0
    ensures TopSong(rows).value.count == PlayedSongsTable(rows)[0].timesPlayed
  {
    var t := PlayedSongsTable(rows);
    forall j | 0 <= j < |t|
      ensures t[j].timesPlayed == |Select(rows, ArtistTitle, SongOf(t[j]))|
    {
      assert SummarizesRows(t[j], rows);
    }
    HeadIsTopSong(rows, t, TopSong(rows).value);
  }

  lemma HeadIsTopSong(rows: seq<Row>, t: seq<PlayedSong>, top: TopSongInfo)
    requires |rows| > 0
    requires forall k :: 0 <= k < |rows| ==> ArtistTitle(rows[k]) in Songs(t)
    requires forall j :: 0 <= j < |t| ==> t[j].timesPlayed == |Select(rows, ArtistTitle, SongOf(t[j]))|
    requires forall i, j :: 0 <= i < j < |t| ==> t[i].timesPlayed >= t[j].timesPlayed
    requires top.count == |Select(rows, ArtistTitle, (top.artist, top.title))| > 0
    requires forall i :: 0 <= i < |rows| ==> |Select(rows, ArtistTitle, ArtistTitle(rows[i]))| <= top.count
    ensures |t| > 0 && top.count == t[0].timesPlayed
  {
    assert ArtistTitle(rows[0]) in Songs(t);
    // the head's song is the song of some row, played at most as often as the top song
    var head := SongOf(t[0]);
    SelectWitness(rows, ArtistTitle, head);
    var k :| 0 <= k < |rows| && ArtistTitle(rows[k]) == head;
    assert t[0].timesPlayed <= top.count;
    // the top song is the song of some row, so it has a row at or below the head
    var ts := (top.artist, top.title);
    SelectWitness(rows, ArtistTitle, ts);
    var k2 :| 0 <= k2 < |rows| && ArtistTitle(rows[k2]) == ts;
    assert ts in Songs(t);
    var i :| 0 <= i < |t| && Songs(t)[i] == ts;
    assert t[i].timesPlayed == top.count;
    assert i == 0 || t[0].timesPlayed >= t[i].timesPlayed;
  }

  // ---------------------------------------------------------------------
  // unplayed artists

  function Identity(s: string): string
  {
    s
  }

  function NotIn(played: set<string>): (p: string -> bool)
  {
    (a: string) => a !in played
  }

  /** The set of credited artists (`set(df_exploded["artist_list"].unique())`). */
  function PlayedArtists(credits: seq<Credit>): (p: set<string>)
    ensures forall a :: a in p <==> exists i :: 0 <= i < |credits| && credits[i].artist == a
  {
    set i | 0 <= i < |credits| :: credits[i].artist
  }

  /** `sorted(all_library_artists - played_artists)`: every library artist
      nobody played, once each, in string order. */
  function UnplayedArtists(library: seq<string>, credits: seq<Credit>): (r: seq<string>)
    ensures SortedBy(r, StrLe) && Distinct(r)
    ensures forall a :: a in r <==> a in library && a !in PlayedArtists(credits)
  {
    var played := PlayedArtists(credits);
    var keep := Keys(Filter(library, NotIn(played)), Identity);
    KeptUnplayed(library, played, keep);
    SortedNames(keep)
  }

  /** The distinct library artists outside `played` are exactly those. */
  lemma KeptUnplayed(library: seq<string>, played: set<string>, keep: seq<string>)
    requires keep == Keys(Filter(library, NotIn(played)), Identity)
    ensures forall a :: a in keep <==> a in library && a !in played
    ensures Distinct(keep)
  {
    var fl := Filter(library, NotIn(played));
    KeysOfNames(fl);
    forall a
      ensures a in fl <==> a in library && a !in played
    {
      if a in library && a !in played {
        var i :| 0 <= i < |library| && library[i] == a;
        assert NotIn(played)(library[i]);
      }
      if a in fl {
        var i :| 0 <= i < |fl| && fl[i] == a;
      }
    }
  }

  /** The distinct names of a list are its names. */
  lemma KeysOfNames(s: seq<string>)
    ensures forall a :: a in Keys(s, Identity) <==> a in s
  {
    var ks := Keys(s, Identity);
    forall a | a in s
      ensures a in ks
    {
      var i :| 0 <= i < |s| && s[i] == a;
      assert Identity(s[i]) in ks;
    }
    forall a | a in ks
      ensures a in s
    {
      var j :| 0 <= j < |ks| && ks[j] == a;
      var i :| 0 <= i < |s| && Identity(s[i]) == ks[j];
    }
  }

  /** `sorted` of distinct names: ascending, still distinct, same names. */
  function SortedNames(keep: seq<string>): (r: seq<string>)
    requires Distinct(keep)
    ensures SortedBy(r, StrLe) && Distinct(r)
    ensures forall a :: a in r <==> a in keep
  {
    var r := SortStrings(keep);
    SortStringsMembers(keep);
    StrLeTotalOrder();
    SortDistinct(keep, StrLe, Identity);
    assert DistinctBy(keep, Identity) by {
      assert forall i :: 0 <= i < |keep| ==> Identity(keep[i]) == keep[i];
    }
    assert Distinct(r) by {
      assert DistinctBy(r, Identity);
      assert forall i :: 0 <= i < |r| ==> Identity(r[i]) == r[i];
    }
    r
  }

  lemma SortStringsMembers(s: seq<string>)
    ensures forall a :: a in SortStrings(s) <==> a in s
  {
    StrLeTotalOrder();
    SortMembers(s, StrLe);
  }

  /** Only which artists the library holds matters, not their order or
      repetition. */
  lemma UnplayedArtistsOfSet(l1: seq<string>, l2: seq<string>, credits: seq<Credit>)
    requires forall a :: a in l1 <==> a in l2
    ensures UnplayedArtists(l1, credits) == UnplayedArtists(l2, credits)
  {
    var r1 := UnplayedArtists(l1, credits);
    var r2 := UnplayedArtists(l2, credits);
    SameMembersPermutation(r1, r2);
    StrLeTotalOrder();
    SortedUnique(r1, r2, StrLe);
  }
}
