/** The pure helpers of the database layer: `format_duration`, `join_dates`
    and the per-row work of `get_playlists`, which reads a party set's date
    off the front of its playlist name. The SQLite queries themselves are
    inputs: a playlist query result is a sequence of rows. */
module Database {
  import opened Seqs
  import opened Text
  import opened Sorting
  import opened Dates

  // ---------------------------------------------------------------------
  // format_duration

  /** Python's `int()` on a float: truncation toward zero. */
  function Trunc(x: real): (t: int)
    ensures x >= 0.0 ==> 0 <= t && t as real <= x < t as real + 1.0
    ensures x < 0.0 ==> t <= 0 && t as real - 1.0 < x <= t as real
  {
    if x >= 0.0 then x.Floor else -((-x).Floor)
  }

  /** Hours, minutes and seconds of a whole number of seconds, split with
      Python's floor `//` and `%` (which agree with Dafny's on a positive
      divisor). */
  datatype Clock = Clock(hours: int, minutes: int, seconds: int)

  function ClockFields(t: int): (c: Clock)
    ensures c.hours * 3600 + c.minutes * 60 + c.seconds == t
    ensures 0 <= c.minutes < 60 && 0 <= c.seconds < 60
    ensures t >= 0 ==> c.hours >= 0
    ensures t < 360000 ==> c.hours < 100
  {
    Clock(t / 3600, (t % 3600) / 60, t % 60)
  }

  /** `s` is `HH:MM:SS` for `t` seconds: three two-digit fields separated by
      colons, minutes and seconds below 60, standing for `t` together. */
  predicate IsClockText(s: string, t: int)
  {
    && |s| == 8 && s[2] == ':' && s[5] == ':'
    && AllDigits(s[..2]) && AllDigits(s[3..5]) && AllDigits(s[6..])
    && ParseDigits(s[3..5]) < 60 && ParseDigits(s[6..]) < 60
    && ParseDigits(s[..2]) * 3600 + ParseDigits(s[3..5]) * 60 + ParseDigits(s[6..]) == t
  }

  /** `format_duration(seconds)`: `HH:MM:SS`, each field at least two wide.
      Negative inputs give a negative hour field such as `-1:59:59`. */
  function FormatDuration(x: real): (s: string)
    ensures 0 <= Trunc(x) < 360000 ==> |s| == 8 && s[2] == ':' && s[5] == ':'
    ensures 0 <= Trunc(x) < 360000 ==> IsClockText(s, Trunc(x))
  {
    FormatSeconds(Trunc(x))
  }

  /** The text of a whole number of seconds. */
  function FormatSeconds(t: int): (s: string)
    ensures 0 <= t < 360000 ==> |s| == 8 && s[2] == ':' && s[5] == ':'
    ensures 0 <= t < 360000 ==> IsClockText(s, t)
  {
    ClockText(ClockFields(t))
  }

  function ClockText(c: Clock): (s: string)
    ensures 0 <= c.hours < 100 && 0 <= c.minutes < 60 && 0 <= c.seconds < 60 ==>
      |s| == 8 && s[2] == ':' && s[5] == ':'
    ensures 0 <= c.hours < 100 && 0 <= c.minutes < 60 && 0 <= c.seconds < 60 ==>
      IsClockText(s, c.hours * 3600 + c.minutes * 60 + c.seconds)
  {
    var s := Pad2(c.hours) + ":" + Pad2(c.minutes) + ":" + Pad2(c.seconds);
    assert 0 <= c.hours < 100 && 0 <= c.minutes < 60 && 0 <= c.seconds < 60 ==>
      s[..2] == Pad2(c.hours) && s[3..5] == Pad2(c.minutes) && s[6..] == Pad2(c.seconds);
    s
  }

  /** Reads an `H:M:S` text back into seconds. */
  function ParseClock(s: string): Option<int>
  {
    var p := Split(s, ":");
    if |p| != 3 then None
    else match (ParseInt(p[0]), ParseInt(p[1]), ParseInt(p[2]))
      case (Some(h), Some(m), Some(sec)) => Some(h * 3600 + m * 60 + sec)
      case _ => None
  }

  lemma Pad2NoColon(n: int)
    ensures ':' !in Pad2(n)
  {
    var s := Pad2(n);
    if n < 0 {
      assert forall i :: 1 <= i < |s| ==> s[i] == NatToString(-n)[i - 1];
    }
  }

  /** The formatted duration reads back as the truncated number of seconds:
      `format_duration` loses only the fraction. */
  lemma FormatDurationParsesBack(x: real)
    ensures ParseClock(FormatDuration(x)) == Some(Trunc(x))
  {
    FormatSecondsParsesBack(Trunc(x));
  }

  lemma FormatSecondsParsesBack(t: int)
    ensures ParseClock(FormatSeconds(t)) == Some(t)
  {
    ClockParsesBackTo(ClockFields(t), t);
  }

  lemma ClockParsesBackTo(c: Clock, t: int)
    requires c.hours * 3600 + c.minutes * 60 + c.seconds == t
    ensures ParseClock(ClockText(c)) == Some(t)
  {
    ClockParsesBack(c);
  }

  /** Any three fields written with `Pad2` and two colons read back as the
      seconds they stand for. */
  lemma ClockParsesBack(c: Clock)
    ensures ParseClock(ClockText(c)) == Some(c.hours * 3600 + c.minutes * 60 + c.seconds)
  {
    FieldsSplit(c);
    Pad2ParsesBack(c.hours);
    Pad2ParsesBack(c.minutes);
    Pad2ParsesBack(c.seconds);
    ParseClockFields(ClockText(c), Pad2(c.hours), Pad2(c.minutes), Pad2(c.seconds), c);
  }

  lemma ParseClockFields(text: string, a: string, b: string, d: string, c: Clock)
    requires Split(text, ":") == [a, b, d]
    requires ParseInt(a) == Some(c.hours) && ParseInt(b) == Some(c.minutes) && ParseInt(d) == Some(c.seconds)
    ensures ParseClock(text) == Some(c.hours * 3600 + c.minutes * 60 + c.seconds)
  {
  }

  lemma FieldsSplit(c: Clock)
    ensures Split(ClockText(c), ":") == [Pad2(c.hours), Pad2(c.minutes), Pad2(c.seconds)]
  {
    Pad2NoColon(c.hours);
    Pad2NoColon(c.minutes);
    Pad2NoColon(c.seconds);
    SplitThree(Pad2(c.hours), Pad2(c.minutes), Pad2(c.seconds));
  }

  lemma SplitThree(a: string, b: string, c: string)
    requires ':' !in a && ':' !in b && ':' !in c
    ensures Split(a + ":" + b + ":" + c, ":") == [a, b, c]
  {
    var parts := [a, b, c];
    JoinCons(b, [c], ":");
    assert [b] + [c] == [b, c];
    JoinCons(a, [b, c], ":");
    assert [a] + [b, c] == parts;
    assert a + ":" + (b + ":" + c) == a + ":" + b + ":" + c;
    SplitJoin(parts, ":");
  }

  /** The duration cell of the tables: `format_duration(x)` for a present
      value and `"N/A"` for a missing one. */
  function DurationCell(x: Option<real>): (s: string)
    ensures x.None? <==> s == "N/A"
    ensures x.Some? ==> ParseClock(s) == Some(Trunc(x.value))
  {
    if x.None? then "N/A"
    else
      FormatDurationParsesBack(x.value);
      NotAvailableUnparsed();
      FormatDuration(x.value)
  }

  /** The placeholder is not a duration. */
  lemma NotAvailableUnparsed()
    ensures ParseClock("N/A") == None
  {
    var parts := ["N/A"];
    assert forall k :: 0 <= k < |parts| ==> ':' !in parts[k];
    SplitJoin(parts, ":");
    assert Join(parts, ":") == "N/A";
  }

  // ---------------------------------------------------------------------
  // join_dates

  /** The ISO texts of the present dates. */
  function IsoDates(x: seq<Option<Date>>): (r: seq<string>)
    ensures |r| <= |x|
  {
    Map(Somes(x), IsoFormat)
  }

  /** `join_dates(x)`: the present dates as `YYYY-MM-DD`, sorted as strings
      and joined with `", "`. */
  function JoinDates(x: seq<Option<Date>>): (s: string)
    ensures s == "" <==> forall i :: 0 <= i < |x| ==> x[i].None?
  {
    var items := SortStrings(IsoDates(x));
    SomesEmpty(x);
    if |items| > 0 then
      assert items[0] in multiset(IsoDates(x));
      assert |items[0]| == 10;
      JoinFirst(items, ", ");
      Join(items, ", ")
    else
      Join(items, ", ")
  }

  /** A join of at least one item starts with the first item. */
  lemma JoinFirst(items: seq<string>, sep: string)
    requires |items| > 0
    ensures items[0] <= Join(items, sep)
  {
  }

  /** No present values exactly when every entry is `None`. */
  lemma SomesEmpty<T>(x: seq<Option<T>>)
    ensures |Somes(x)| == 0 <==> forall i :: 0 <= i < |x| ==> x[i].None?
  {
    if |Somes(x)| > 0 {
      assert Some(Somes(x)[0]) in x;
    }
  }

  /** The separator never occurs inside an ISO date. */
  lemma IsoFormatNoComma(d: Date)
    ensures ',' !in IsoFormat(d)
  {
    var s := IsoFormat(d);
    forall i | 0 <= i < |s|
      ensures s[i] != ','
    {
      if i < 4 {
        assert s[..4][i] == s[i];
      } else if 4 < i < 7 {
        assert s[5..7][i - 5] == s[i];
      } else if 7 < i {
        assert s[8..][i - 8] == s[i];
      }
    }
  }

  /** `join_dates` ignores the order of its input. */
  lemma JoinDatesPermutation(x: seq<Option<Date>>, y: seq<Option<Date>>)
    requires multiset(x) == multiset(y)
    ensures JoinDates(x) == JoinDates(y)
  {
    SomesPermutation(x, y);
    MapPermutation(Somes(x), Somes(y), IsoFormat);
    SortStringsPermutation(IsoDates(x), IsoDates(y));
  }

  /** Splitting the joined text at `", "` gives back one sorted ISO date per
      present input date. */
  lemma JoinDatesSplit(x: seq<Option<Date>>)
    requires exists i :: 0 <= i < |x| && x[i].Some?
    ensures Split(JoinDates(x), ", ") == SortStrings(IsoDates(x))
    ensures |Split(JoinDates(x), ", ")| == |Somes(x)|
  {
    var i :| 0 <= i < |x| && x[i].Some?;
    assert x[i].value in Somes(x);
    var items := SortStrings(IsoDates(x));
    assert |items| == |multiset(items)| == |Somes(x)|;
    SortedIsoNoComma(Somes(x), items);
    SplitJoin(items, ", ");
  }

  /** No comma occurs in a rearrangement of ISO dates. */
  lemma SortedIsoNoComma(ds: seq<Date>, items: seq<string>)
    requires multiset(items) == multiset(Map(ds, IsoFormat))
    ensures forall k :: 0 <= k < |items| ==> ',' !in items[k]
  {
    forall k | 0 <= k < |items|
      ensures ',' !in items[k]
    {
      assert items[k] in multiset(Map(ds, IsoFormat));
      var j :| 0 <= j < |ds| && Map(ds, IsoFormat)[j] == items[k];
      IsoFormatNoComma(ds[j]);
    }
  }

  // ---------------------------------------------------------------------
  // get_playlists

  /** A row of `SELECT id, name FROM Playlists`. */
  datatype PlaylistRow = PlaylistRow(id: int, name: string)

  /** A playlist with the date read off its name, `None` when there is none. */
  datatype Playlist = Playlist(id: int, name: string, date: Option<Date>)

  /** One record per row, in query order. */
  function GetPlaylists(rows: seq<PlaylistRow>): (r: seq<Playlist>)
    ensures |r| == |rows|
    ensures forall i :: 0 <= i < |rows| ==> r[i].id == rows[i].id && r[i].name == rows[i].name
    ensures forall i :: 0 <= i < |rows| ==> r[i].date == ParseNameDate(rows[i].name)
    ensures forall i :: 0 <= i < |rows| && MatchDatePrefix(rows[i].name).None? ==> r[i].date.None?
  {
    Map(rows, (row: PlaylistRow) => Playlist(row.id, row.name, ParseNameDate(row.name)))
  }

  // ---------------------------------------------------------------------
  // get_tracks_for_playlist

  /** A row of the playlist-tracks query, in playlist position order. The
      bpm, file path and position columns are not part of this model: the
      individual-playlist table passes all three through unchanged, the
      songs-without-crate table passes bpm through after coercing it to a
      number, and the aggregate tab reads bpm only for its average and
      fastest/slowest cards and its figures. */
  datatype Track = Track(artist: string, title: string, album: string,
                         duration: Option<real>, rating: Option<int>)

  /** A track as the tables show it: the duration formatted by
      `format_duration`, or "N/A" when that raises on a missing value. */
  datatype TrackRow = TrackRow(artist: string, title: string, album: string, duration: string, rating: Option<int>)

  function FormatTrack(t: Track): (r: TrackRow)
    ensures r.artist == t.artist && r.title == t.title && r.album == t.album && r.rating == t.rating
    ensures t.duration.None? <==> r.duration == "N/A"
    ensures t.duration.Some? ==> ParseClock(r.duration) == Some(Trunc(t.duration.value))
  {
    TrackRow(t.artist, t.title, t.album, DurationCell(t.duration), t.rating)
  }
}
