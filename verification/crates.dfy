/** The crates tab: crate names read as `-`-separated paths, the level
    columns of the structure chart padded to a common depth, the path table,
    and the library songs that sit in no crate, ordered by artist. The crate
    and song queries are inputs. */
module Crates {
  import opened Seqs
  import opened Text
  import opened Sorting
  import opened Database

  /** A row of `SELECT id, name FROM crates`. */
  datatype Crate = Crate(id: int, name: string)

  const CratesTab: string := "crates"

  // ---------------------------------------------------------------------
  // crate paths

  /** A path segment as the chart and the table keep it: non-empty, with no
      surrounding whitespace and no `-`. */
  predicate CleanSegment(p: string)
  {
    p != "" && Trimmed(p) && '-' !in p
  }

  /** `[p.strip() for p in name.split("-") if p.strip()]`. */
  function CrateSegments(name: string): (parts: seq<string>)
    ensures forall i :: 0 <= i < |parts| ==> CleanSegment(parts[i])
  {
    SplitPiecesLack(name, '-');
    assert "-" == ['-'];
    StripPiecesLack(Split(name, "-"));
    StripPieces(Split(name, "-"))
  }

  /** `[p.strip() for p in pieces if p.strip()]`: the stripped pieces, the
      blank ones dropped. */
  function StripPieces(pieces: seq<string>): (parts: seq<string>)
    ensures forall i :: 0 <= i < |parts| ==> parts[i] != "" && Trimmed(parts[i])
  {
    if |pieces| == 0 then [] else (if Strip(pieces[0]) != "" then [Strip(pieces[0])] else []) + StripPieces(pieces[1..])
  }

  /** Stripping adds no `-`. */
  lemma {:induction false} StripPiecesLack(pieces: seq<string>)
    requires forall k :: 0 <= k < |pieces| ==> '-' !in pieces[k]
    ensures forall i :: 0 <= i < |StripPieces(pieces)| ==> '-' !in StripPieces(pieces)[i]
  {
    if |pieces| > 0 {
      StripWithin(pieces[0]);
      StripPiecesLack(pieces[1..]);
    }
  }

  /** The recursion is the comprehension: strip every piece, keep the
      non-empty results. */
  lemma {:induction false} StripPiecesIsComprehension(pieces: seq<string>)
    ensures StripPieces(pieces) == Filter(Map(pieces, Strip), NonEmpty)
  {
    if |pieces| > 0 {
      StripPiecesIsComprehension(pieces[1..]);
      assert Map(pieces, Strip)[1..] == Map(pieces[1..], Strip);
    }
  }

  /** Clean pieces come through unchanged. */
  lemma {:induction false} StripPiecesClean(segs: seq<string>)
    requires forall i :: 0 <= i < |segs| ==> CleanSegment(segs[i])
    ensures StripPieces(segs) == segs
  {
    if |segs| > 0 {
      StripTrimmed(segs[0]);
      StripPiecesClean(segs[1..]);
    }
  }

  /** Joining clean segments with `-` gives a name whose segments they are. */
  lemma SegmentsOfJoin(segs: seq<string>)
    requires forall i :: 0 <= i < |segs| ==> CleanSegment(segs[i])
    ensures CrateSegments(Join(segs, "-")) == segs
  {
    if |segs| == 0 {
      SegmentsOfEmpty();
    } else {
      SplitJoin(segs, "-");
      SegmentsOfPieces(Join(segs, "-"), segs);
    }
  }

  /** A name with no text has no segments. */
  lemma SegmentsOfEmpty()
    ensures CrateSegments("") == []
  {
    var pieces := Split("", "-");
    assert pieces == [""] by {
      assert FindFrom("", "-", 0).None?;
    }
    assert Strip("") == "";
    assert StripPieces(pieces[1..]) == [];
  }

  /** A name that splits into clean pieces has those pieces as segments. */
  lemma SegmentsOfPieces(name: string, segs: seq<string>)
    requires Split(name, "-") == segs
    requires forall i :: 0 <= i < |segs| ==> CleanSegment(segs[i])
    ensures CrateSegments(name) == segs
  {
    StripPiecesClean(segs);
  }

  /** Reading a crate's segments back from their own join changes nothing. */
  lemma SegmentsStable(name: string)
    ensures CrateSegments(Join(CrateSegments(name), "-")) == CrateSegments(name)
  {
    SegmentsOfJoin(CrateSegments(name));
  }

  // ---------------------------------------------------------------------
  // update_crate_structure_chart

  /** `max_levels`: the most segments any crate has, 0 for no crates. */
  function MaxLevels(crates: seq<Crate>): (n: nat)
    ensures forall i :: 0 <= i < |crates| ==> |CrateSegments(crates[i].name)| <= n
    ensures |crates| > 0 ==> exists i :: 0 <= i < |crates| && |CrateSegments(crates[i].name)| == n
    ensures |crates| == 0 ==> n == 0
  {
    var depths := Depths(crates);
    MaxOf(depths)
  }

  function Depths(crates: seq<Crate>): (d: seq<nat>)
    ensures |d| == |crates|
    ensures forall i :: 0 <= i < |crates| ==> d[i] == |CrateSegments(crates[i].name)|
  {
    seq(|crates|, i requires 0 <= i < |crates| => |CrateSegments(crates[i].name)|)
  }

  function SomeOf(s: string): Option<string>
  {
    Some(s)
  }

  /** The level columns of one crate: `level1..levelk` hold its segments and
      the remaining columns up to `levels` hold `None`. */
  function LevelRow(parts: seq<string>, levels: nat): (row: seq<Option<string>>)
    requires |parts| <= levels
    ensures |row| == levels
    ensures forall i :: 0 <= i < |parts| ==> row[i] == Some(parts[i])
    ensures forall i :: |parts| <= i < levels ==> row[i] == None
    ensures Somes(row) == parts
  {
    var present := Map(parts, SomeOf);
    var pad: seq<Option<string>> := seq(levels - |parts|, _ => None);
    SomesConcat(present, pad);
    SomesNone(pad);
    SomesOfPresent(parts);
    present + pad
  }

  lemma {:induction false} SomesOfPresent(parts: seq<string>)
    ensures Somes(Map(parts, SomeOf)) == parts
  {
    if |parts| > 0 {
      SomesOfPresent(parts[1..]);
      assert Map(parts, SomeOf)[1..] == Map(parts[1..], SomeOf);
    }
  }

  /** The data frame behind the sunburst: one padded row per crate, all of
      the same width. The figure drawn from it is not modelled. */
  datatype Chart = EmptyChart | LevelTable(levels: nat, rows: seq<seq<Option<string>>>)

  /** `update_crate_structure_chart`: no update off the crates tab, `{}` for
      no crates, and otherwise one row per crate padded to `max_levels`. */
  function CrateStructureChart(activeTab: string, crates: seq<Crate>): (r: Update<Chart>)
    ensures r.NoUpdate? <==> activeTab != CratesTab
    ensures activeTab == CratesTab && |crates| == 0 ==> r == Set(EmptyChart)
    ensures activeTab == CratesTab && |crates| > 0 ==>
      && r.Set? && r.value.LevelTable?
      && r.value.levels == MaxLevels(crates)
      && |r.value.rows| == |crates|
      && forall i :: 0 <= i < |crates| ==>
           |r.value.rows[i]| == r.value.levels && Somes(r.value.rows[i]) == CrateSegments(crates[i].name)
  {
    if activeTab != CratesTab then NoUpdate
    else if |crates| == 0 then Set(EmptyChart)
    else
      var levels := MaxLevels(crates);
      Set(LevelTable(levels, LevelRows(crates, levels)))
  }

  /** One padded row per crate, each holding that crate's segments. */
  function LevelRows(crates: seq<Crate>, levels: nat): (rows: seq<seq<Option<string>>>)
    requires forall i :: 0 <= i < |crates| ==> |CrateSegments(crates[i].name)| <= levels
    ensures |rows| == |crates|
    ensures forall i :: 0 <= i < |crates| ==>
      |rows[i]| == levels && Somes(rows[i]) == CrateSegments(crates[i].name)
  {
    seq(|crates|, i requires 0 <= i < |crates| => LevelRow(CrateSegments(crates[i].name), levels))
  }

  /** Some crate reaches the full depth, so no level column is all `None`. */
  lemma DeepestCrateFillsLevels(crates: seq<Crate>)
    requires |crates| > 0
    ensures var c := CrateStructureChart(CratesTab, crates).value;
      c.levels == 0 || exists i :: 0 <= i < |c.rows| && c.rows[i][c.levels - 1].Some?
  {
    var c := CrateStructureChart(CratesTab, crates).value;
    var i :| 0 <= i < |crates| && |CrateSegments(crates[i].name)| == c.levels;
    if c.levels > 0 {
      DeepestRowFilled(c.rows[i], CrateSegments(crates[i].name), c.levels);
    }
  }

  /** A row with as many segments as levels has its last level filled. */
  lemma DeepestRowFilled(row: seq<Option<string>>, parts: seq<string>, levels: nat)
    requires |row| == levels == |parts| > 0 && Somes(row) == parts
    ensures row[levels - 1].Some?
  {
    SomesFull(row);
  }

  // ---------------------------------------------------------------------
  // update_crate_structure_table

  /** `" / ".join(parts)`. */
  function CratePath(name: string): (path: string)
    ensures path == "" <==> |CrateSegments(name)| == 0
  {
    var parts := CrateSegments(name);
    if |parts| > 0 then
      assert parts[0] <= Join(parts, " / ");
      Join(parts, " / ")
    else Join(parts, " / ")
  }

  /** A crate named by `-`-joined clean segments shows the same segments
      joined by `" / "`. */
  lemma CratePathOfJoin(segs: seq<string>)
    requires forall i :: 0 <= i < |segs| ==> CleanSegment(segs[i])
    ensures CratePath(Join(segs, "-")) == Join(segs, " / ")
  {
    SegmentsOfJoin(segs);
  }

  datatype Column = Column(name: string, id: string)

  /** `update_crate_structure_table`: no update off the crates tab, empty data
      and columns for no crates, and otherwise one path per crate in query
      order under the single "Crate Path" column. */
  function CrateStructureTable(activeTab: string, crates: seq<Crate>): (r: Update<(seq<string>, seq<Column>)>)
    ensures r.NoUpdate? <==> activeTab != CratesTab
    ensures activeTab == CratesTab && |crates| == 0 ==> r == Set(([], []))
    ensures activeTab == CratesTab && |crates| > 0 ==>
      && r.Set? && r.value.1 == [Column("Crate Path", "Crate Path")]
      && |r.value.0| == |crates|
      && forall i :: 0 <= i < |crates| ==> r.value.0[i] == CratePath(crates[i].name)
  {
    if activeTab != CratesTab then NoUpdate
    else if |crates| == 0 then Set(([], []))
    else Set((Map(crates, CratePathOf), [Column("Crate Path", "Crate Path")]))
  }

  function CratePathOf(c: Crate): string
  {
    CratePath(c.name)
  }

  /** The chart and the table agree: a crate's present levels, joined with
      `" / "`, are its path. */
  lemma ChartMatchesTable(crates: seq<Crate>, i: nat)
    requires i < |crates|
    ensures var chart := CrateStructureChart(CratesTab, crates).value;
      var table := CrateStructureTable(CratesTab, crates).value;
      Join(Somes(chart.rows[i]), " / ") == table.0[i]
  {
  }

  // ---------------------------------------------------------------------
  // update_songs_without_crate_table

  /** `sort_values("artist")`. */
  predicate ByArtist(a: TrackRow, b: TrackRow)
  {
    StrLe(a.artist, b.artist)
  }

  lemma ByArtistTotal()
    ensures TotalPreorder(ByArtist)
  {
    StrLeTotalOrder();
    forall a: TrackRow, b: TrackRow
      ensures ByArtist(a, b) || ByArtist(b, a)
    {
      assert StrLe(a.artist, b.artist) || StrLe(b.artist, a.artist);
    }
    forall a: TrackRow, b: TrackRow, c: TrackRow | ByArtist(a, b) && ByArtist(b, c)
      ensures ByArtist(a, c)
    {
      StrLeTransitive(a.artist, b.artist, c.artist);
    }
  }

  /** `update_songs_without_crate_table`: nothing off the crates tab, and
      otherwise every song once, duration formatted, ordered by artist. */
  function SongsWithoutCrate(activeTab: string, songs: seq<Track>): (r: seq<TrackRow>)
    ensures activeTab != CratesTab ==> r == []
    ensures activeTab == CratesTab ==>
      && |r| == |songs|
      && multiset(r) == multiset(Map(songs, FormatTrack))
      && SortedBy(r, ByArtist)
  {
    if activeTab != CratesTab || |songs| == 0 then []
    else
      var rows := Map(songs, FormatTrack);
      ByArtistTotal();
      SortSorted(rows, ByArtist);
      SortMultiset(rows, ByArtist);
      Sort(rows, ByArtist)
  }

  /** Every row of the table is a song of the query with its duration read
      back as whole seconds, or "N/A" for a missing one. */
  lemma SongsWithoutCrateRows(songs: seq<Track>, i: nat)
    requires i < |SongsWithoutCrate(CratesTab, songs)|
    ensures var row := SongsWithoutCrate(CratesTab, songs)[i];
      exists k :: 0 <= k < |songs| && row.artist == songs[k].artist && row.title == songs[k].title
        && (songs[k].duration.None? <==> row.duration == "N/A")
        && (songs[k].duration.Some? ==> ParseClock(row.duration) == Some(Trunc(songs[k].duration.value)))
  {
    var r := SongsWithoutCrate(CratesTab, songs);
    var rows := Map(songs, FormatTrack);
    assert r[i] in multiset(rows);
    var k :| 0 <= k < |rows| && rows[k] == r[i];
  }
}
