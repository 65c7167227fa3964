/** The library tab: the total count, the rating histogram over the ratings
    1 to 5 after numeric coercion, and the library rows with their ratings
    coerced. The library query is an input. */
module Library {
  import opened Seqs
  import opened Text
  import opened Grouping

  const LibraryTab: string := "library"

  /** The raw `rating` cell of a library row. SQLite's dynamic typing lets a
      cell hold an integer, a text or nothing. */
  datatype RawRating = IntCell(n: int) | TextCell(s: string) | NullCell

  /** A row of the library query. The bpm column is not modelled. */
  datatype LibrarySong = LibrarySong(id: int, artist: string, title: string, album: string, rating: RawRating)

  /** `pd.to_numeric(cell, errors="coerce")`: integers stay, a text of
      decimal digits becomes its value, anything else becomes missing. */
  function CoerceRating(c: RawRating): (r: Option<int>)
    ensures c.NullCell? ==> r.None?
    ensures c.IntCell? ==> r == Some(c.n)
    ensures c.TextCell? ==> (r.Some? <==> |c.s| > 0 && AllDigits(c.s))
  {
    match c
    case IntCell(n) => Some(n)
    case TextCell(s) => if |s| > 0 && AllDigits(s) then Some(ParseDigits(s)) else None
    case NullCell => None
  }

  /** A rating stored as the text of a number coerces to that number. */
  lemma CoerceNumberText(n: nat)
    ensures CoerceRating(TextCell(NatToString(n))) == Some(n)
  {
    ParseNatToString(n);
  }

  /** A text with a non-digit in it coerces to missing. */
  lemma CoerceNonNumeric(s: string, i: nat)
    requires i < |s| && !IsDigit(s[i])
    ensures CoerceRating(TextCell(s)) == None
  {
  }

  /** A library row as returned to the table: the rating coerced. */
  datatype LibraryRow = LibraryRow(id: int, artist: string, title: string, album: string, rating: Option<int>)

  function Coerced(s: LibrarySong): LibraryRow
  {
    LibraryRow(s.id, s.artist, s.title, s.album, CoerceRating(s.rating))
  }

  /** A row the histogram counts: rated, and rated 1 to 5. */
  predicate Rated(row: LibraryRow)
  {
    row.rating.Some? && 1 <= row.rating.value <= 5
  }

  /** `rated_df`: `dropna` on the rating, then the 1..5 filter. */
  function RatedRows(rows: seq<LibraryRow>): (r: seq<LibraryRow>)
    ensures |r| <= |rows|
    ensures forall i :: 0 <= i < |r| ==> Rated(r[i])
    ensures forall row :: row in r <==> row in rows && Rated(row)
  {
    Filter(rows, Rated)
  }

  /** The ratings of the counted rows, in row order. */
  function KeptRatings(rows: seq<LibraryRow>): (r: seq<int>)
    ensures |r| == |RatedRows(rows)|
    ensures forall i :: 0 <= i < |r| ==> 1 <= r[i] <= 5
  {
    var rated := RatedRows(rows);
    seq(|rated|, i requires 0 <= i < |rated| => rated[i].rating.value)
  }

  /** One bar of the histogram. */
  datatype RatingCount = RatingCount(rating: int, count: nat)

  function CountOf(c: RatingCount): int
  {
    c.count
  }

  function RatingOfCount(c: RatingCount): int
  {
    c.rating
  }

  function Ratings(cs: seq<RatingCount>): (r: seq<int>)
    ensures |r| == |cs|
  {
    Map(cs, RatingOfCount)
  }

  /** How many of `kept` fall on each of the `n` values from `lo`, summed. */
  function CountRange(kept: seq<int>, lo: int, n: nat): nat
    decreases n
  {
    if n == 0 then 0 else Occurrences(kept, lo) + CountRange(kept, lo + 1, n - 1)
  }

  /** The bars of `kept` over the values `lo .. lo+n-1`: each bar a value
      of the range that occurs, with its number of occurrences; the bars in
      strictly ascending order of value; every value that occurs has one. */
  predicate Histogram(kept: seq<int>, lo: int, n: nat, r: seq<RatingCount>)
  {
    && (forall i :: 0 <= i < |r| ==>
          lo <= r[i].rating < lo + n && r[i].count == Occurrences(kept, r[i].rating) && r[i].count > 0)
    && (forall i, j :: 0 <= i < j < |r| ==> r[i].rating < r[j].rating)
    && (forall v :: lo <= v < lo + n && Occurrences(kept, v) > 0 ==> v in Ratings(r))
  }

  /** `value_counts().sort_index()` over the values `lo .. lo+n-1`: one bar
      per value that occurs, in ascending order, with its number of
      occurrences. */
  function CountsFrom(kept: seq<int>, lo: int, n: nat): (r: seq<RatingCount>)
    ensures Histogram(kept, lo, n, r)
    ensures SumOf(r, CountOf) == CountRange(kept, lo, n)
    decreases n
  {
    if n == 0 then []
    else
      var c := Occurrences(kept, lo);
      var rest := CountsFrom(kept, lo + 1, n - 1);
      if c > 0 then
        BarAtLow(kept, lo, n, rest);
        [RatingCount(lo, c)] + rest
      else
        NoBarAtLow(kept, lo, n, rest);
        rest
  }

  /** A value that occurs gets its bar in front of the bars above it. */
  lemma BarAtLow(kept: seq<int>, lo: int, n: nat, rest: seq<RatingCount>)
    requires n > 0 && Occurrences(kept, lo) > 0
    requires Histogram(kept, lo + 1, n - 1, rest)
    requires SumOf(rest, CountOf) == CountRange(kept, lo + 1, n - 1)
    ensures var r := [RatingCount(lo, Occurrences(kept, lo))] + rest;
      Histogram(kept, lo, n, r) && SumOf(r, CountOf) == CountRange(kept, lo, n)
  {
    var bar := RatingCount(lo, Occurrences(kept, lo));
    SumOfConcat([bar], rest, CountOf);
    assert SumOf([bar], CountOf) == bar.count;
    BarsCounted(kept, lo, n, bar, rest);
    BarsAscending(lo, bar, rest);
    BarsCover(kept, lo, n, bar, rest);
  }

  /** A value that does not occur needs no bar. */
  lemma NoBarAtLow(kept: seq<int>, lo: int, n: nat, rest: seq<RatingCount>)
    requires n > 0 && Occurrences(kept, lo) == 0
    requires Histogram(kept, lo + 1, n - 1, rest)
    requires SumOf(rest, CountOf) == CountRange(kept, lo + 1, n - 1)
    ensures Histogram(kept, lo, n, rest) && SumOf(rest, CountOf) == CountRange(kept, lo, n)
  {
  }

  lemma BarsCounted(kept: seq<int>, lo: int, n: nat, bar: RatingCount, rest: seq<RatingCount>)
    requires n > 0 && bar.rating == lo && bar.count == Occurrences(kept, lo) > 0
    requires forall i :: 0 <= i < |rest| ==>
      lo + 1 <= rest[i].rating < lo + n && rest[i].count == Occurrences(kept, rest[i].rating) && rest[i].count > 0
    ensures var r := [bar] + rest;
      forall i :: 0 <= i < |r| ==>
        lo <= r[i].rating < lo + n && r[i].count == Occurrences(kept, r[i].rating) && r[i].count > 0
  {
  }

  lemma BarsAscending(lo: int, bar: RatingCount, rest: seq<RatingCount>)
    requires bar.rating == lo
    requires forall i :: 0 <= i < |rest| ==> lo + 1 <= rest[i].rating
    requires forall i, j :: 0 <= i < j < |rest| ==> rest[i].rating < rest[j].rating
    ensures var r := [bar] + rest;
      forall i, j :: 0 <= i < j < |r| ==> r[i].rating < r[j].rating
  {
  }

  lemma BarsCover(kept: seq<int>, lo: int, n: nat, bar: RatingCount, rest: seq<RatingCount>)
    requires n > 0 && bar.rating == lo
    requires forall v :: lo + 1 <= v < lo + n && Occurrences(kept, v) > 0 ==> v in Ratings(rest)
    ensures forall v :: lo <= v < lo + n && Occurrences(kept, v) > 0 ==> v in Ratings([bar] + rest)
  {
    var r := [bar] + rest;
    forall v | lo <= v < lo + n && Occurrences(kept, v) > 0
      ensures v in Ratings(r)
    {
      if v == lo {
        assert Ratings(r)[0] == lo;
      } else {
        var k :| 0 <= k < |rest| && Ratings(rest)[k] == v;
        assert Ratings(r)[k + 1] == v;
      }
    }
  }

  /** When every value lies in the range, the counts over the range add up
      to the number of values. */
  lemma {:induction false} CountRangeAll(kept: seq<int>, lo: int, n: nat)
    requires forall i :: 0 <= i < |kept| ==> lo <= kept[i] < lo + n
    ensures CountRange(kept, lo, n) == |kept|
  {
    if |kept| == 0 {
      CountRangeNone(kept, lo, n);
    } else {
      CountRangeAll(kept[1..], lo, n);
      assert kept == [kept[0]] + kept[1..];
      CountRangeCons(kept[0], kept[1..], lo, n);
    }
  }

  lemma {:induction false} CountRangeNone(kept: seq<int>, lo: int, n: nat)
    requires |kept| == 0
    ensures CountRange(kept, lo, n) == 0
    decreases n
  {
    if n > 0 {
      CountRangeNone(kept, lo + 1, n - 1);
    }
  }

  lemma {:induction false} CountRangeCons(x: int, rest: seq<int>, lo: int, n: nat)
    ensures CountRange([x] + rest, lo, n) == CountRange(rest, lo, n) + (if lo <= x < lo + n then 1 else 0)
    decreases n
  {
    if n > 0 {
      assert ([x] + rest)[1..] == rest;
      CountRangeCons(x, rest, lo + 1, n - 1);
    }
  }

  /** The histogram bars: each of the ratings 1 to 5 that occurs, ascending,
      with counts adding up to the number of counted rows. */
  function RatingHistogram(rows: seq<LibraryRow>): (r: seq<RatingCount>)
    ensures forall i :: 0 <= i < |r| ==>
      1 <= r[i].rating <= 5 && r[i].count > 0 && r[i].count == Occurrences(KeptRatings(rows), r[i].rating)
    ensures forall i, j :: 0 <= i < j < |r| ==> r[i].rating < r[j].rating
    ensures forall v :: 1 <= v <= 5 && Occurrences(KeptRatings(rows), v) > 0 ==> v in Ratings(r)
    ensures SumOf(r, CountOf) == |RatedRows(rows)|
  {
    CountRangeAll(KeptRatings(rows), 1, 5);
    CountsFrom(KeptRatings(rows), 1, 5)
  }

  /** What the histogram is drawn from; the bar figure itself is not
      modelled. */
  datatype RatingFigure = EmptyFigure | RatingBars(counts: seq<RatingCount>)

  datatype LibraryView = LibraryView(totalText: string, figure: RatingFigure, rows: seq<LibraryRow>)

  /** `update_library_tab`: no update off the library tab (`PreventUpdate`);
      otherwise the total, the histogram of the coerced ratings (`{}` for an
      empty library, whose frame has no rating column), and every row with
      its rating coerced. */
  function UpdateLibraryTab(activeTab: string, songs: seq<LibrarySong>): (r: Update<LibraryView>)
    ensures r.NoUpdate? <==> activeTab != LibraryTab
    ensures r.Set? ==>
      && r.value.totalText == "Total Songs: " + NatToString(|songs|)
      && |r.value.rows| == |songs|
      && (forall i :: 0 <= i < |songs| ==>
            && r.value.rows[i].id == songs[i].id
            && r.value.rows[i].artist == songs[i].artist
            && r.value.rows[i].title == songs[i].title
            && r.value.rows[i].album == songs[i].album
            && r.value.rows[i].rating == CoerceRating(songs[i].rating))
      && (r.value.figure.EmptyFigure? <==> |songs| == 0)
      && (|songs| > 0 ==> r.value.figure == RatingBars(RatingHistogram(r.value.rows)))
  {
    if activeTab != LibraryTab then NoUpdate
    else
      var rows := Map(songs, Coerced);
      var figure := if |songs| > 0 then RatingBars(RatingHistogram(rows)) else EmptyFigure;
      Set(LibraryView("Total Songs: " + NatToString(|songs|), figure, rows))
  }

  /** The total text reads back as the number of library rows. */
  lemma TotalTextReadsBack(activeTab: string, songs: seq<LibrarySong>)
    requires activeTab == LibraryTab
    ensures var t := UpdateLibraryTab(activeTab, songs).value.totalText;
      |t| > 13 && t[..13] == "Total Songs: " && AllDigits(t[13..]) && ParseDigits(t[13..]) == |songs|
  {
    var t := UpdateLibraryTab(activeTab, songs).value.totalText;
    assert t[13..] == NatToString(|songs|);
    ParseNatToString(|songs|);
  }

  /** A song whose rating is missing, not numeric, or outside 1..5 leaves
      the histogram as it was. */
  lemma UnratedSongIgnored(songs: seq<LibrarySong>, s: LibrarySong)
    requires !Rated(Coerced(s))
    ensures RatedRows(Map(songs + [s], Coerced)) == RatedRows(Map(songs, Coerced))
    ensures RatingHistogram(Map(songs + [s], Coerced)) == RatingHistogram(Map(songs, Coerced))
  {
    var a := Map(songs, Coerced);
    MapConcat(songs, [s], Coerced);
    assert Map([s], Coerced) == [Coerced(s)];
    FilterConcat(a, [Coerced(s)], Rated);
    FilterSingleton(Coerced(s), Rated);
    assert a + [] == a;
  }
}
