/** The aggregate tab: the collapse / select-all / deselect-all controls of
    the set list, the selection badge, the style and date filters over the
    chosen sets, and the dashboard of counting statistics and tables over
    the tracks of the sets that pass. */
module Aggregate {
  import opened Seqs
  import opened Text
  import opened Grouping
  import opened Dates
  import opened Database
  import opened Shared
  import opened Tables

  // ---------------------------------------------------------------------
  // toggle_sets_collapse

  /** `callback_context.triggered`: nothing, or the id of the first
      triggering property, such as `"sets-collapse-btn.n_clicks"`. */
  datatype Trigger = NotTriggered | Triggered(propId: string)

  /** The component of a property id: the text before its first `.`. */
  function ComponentOf(propId: string): string
  {
    Split(propId, ".")[0]
  }

  const CollapseButton: string := "sets-collapse-btn"
  const SelectAllButton: string := "select-all-sets-btn"
  const DeselectAllButton: string := "deselect-all-sets-btn"

  /** The open state of the set list and the selection of the set dropdown. */
  datatype Controls = Controls(isOpen: bool, selection: Update<seq<int>>)

  /** `toggle_sets_collapse`: the collapse button flips the list and keeps the
      selection, select-all opens it and selects every option in option
      order, deselect-all opens it and selects nothing, and anything else
      leaves both as they are. */
  function ToggleSetsCollapse(trigger: Trigger, isOpen: bool, options: seq<SetOption>): (r: Controls)
    ensures trigger.NotTriggered? ==> r == Controls(isOpen, NoUpdate)
    ensures trigger.Triggered? && ComponentOf(trigger.propId) == CollapseButton ==>
      r == Controls(!isOpen, NoUpdate)
    ensures trigger.Triggered? && ComponentOf(trigger.propId) == SelectAllButton ==>
      && r.isOpen && r.selection.Set? && |r.selection.value| == |options|
      && forall i :: 0 <= i < |options| ==> r.selection.value[i] == options[i].value
    ensures trigger.Triggered? && ComponentOf(trigger.propId) == DeselectAllButton ==>
      r == Controls(true, Set([]))
    ensures trigger.Triggered? && ComponentOf(trigger.propId) !in {CollapseButton, SelectAllButton, DeselectAllButton} ==>
      r == Controls(isOpen, NoUpdate)
  {
    if trigger.NotTriggered? then Controls(isOpen, NoUpdate)
    else
      var id := ComponentOf(trigger.propId);
      if id == CollapseButton then Controls(!isOpen, NoUpdate)
      else if id == SelectAllButton then Controls(true, Set(Map(options, OptionValue)))
      else if id == DeselectAllButton then Controls(true, Set([]))
      else Controls(isOpen, NoUpdate)
  }

  /** A button's clicks arrive as `<button>.n_clicks`, whose component is the
      button. */
  lemma ComponentOfClicks(button: string)
    requires '.' !in button
    ensures ComponentOf(button + ".n_clicks") == button
  {
    assert ".n_clicks" == "." + "n_clicks";
    assert button + ".n_clicks" == button + "." + "n_clicks";
    SplitFirst(button, ".", "n_clicks");
  }

  /** Clicking the collapse button twice restores the open state and never
      touches the selection. */
  lemma CollapseTwice(isOpen: bool, options: seq<SetOption>)
    ensures var t := Triggered(CollapseButton + ".n_clicks");
      && ToggleSetsCollapse(t, ToggleSetsCollapse(t, isOpen, options).isOpen, options) == Controls(isOpen, NoUpdate)
      && ToggleSetsCollapse(t, isOpen, options).selection.NoUpdate?
  {
    ComponentOfClicks(CollapseButton);
  }

  // ---------------------------------------------------------------------
  // update_set_selection_count

  /** A coloured badge. */
  datatype Badge = Badge(text: string, color: string)

  /** `len(x) if x else 0`. */
  function CountOf<T>(x: Option<seq<T>>): nat
  {
    if x.Some? then |x.value| else 0
  }

  /** `update_set_selection_count`: "None" when nothing is selected (checked
      first, so an empty option list also reads "None"), "All" when every
      option is, and otherwise "k/n". */
  function SelectionLabel(selected: Option<seq<int>>, options: Option<seq<SetOption>>): (r: Badge)
    ensures r.color == "danger" <==> CountOf(selected) == 0
    ensures r.color == "success" <==> 0 < CountOf(selected) == CountOf(options)
    ensures r.color == "warning" <==> 0 < CountOf(selected) != CountOf(options)
    ensures r.color == "danger" ==> r.text == "None"
    ensures r.color == "success" ==> r.text == "All"
  {
    var count := CountOf(selected);
    var total := CountOf(options);
    if count == 0 then Badge("None", "danger")
    else if count == total then Badge("All", "success")
    else Badge(NatToString(count) + "/" + NatToString(total), "warning")
  }

  /** A partial selection's text reads back as the selected and total counts. */
  lemma SelectionLabelParsesBack(selected: Option<seq<int>>, options: Option<seq<SetOption>>)
    requires SelectionLabel(selected, options).color == "warning"
    ensures var parts := Split(SelectionLabel(selected, options).text, "/");
      && |parts| == 2 && AllDigits(parts[0]) && AllDigits(parts[1])
      && ParseDigits(parts[0]) == CountOf(selected)
      && ParseDigits(parts[1]) == CountOf(options)
  {
    var a := NatToString(CountOf(selected));
    var b := NatToString(CountOf(options));
    DigitsLack(a, '/');
    DigitsLack(b, '/');
    SplitFirst(a, "/", b);
    assert Split(b, "/") == [b] by {
      assert FindFrom(b, "/", 0).None? by {
        NoOccurrenceBefore(b, "/", |b|);
        assert b[..|b|] == b;
      }
    }
    ParseNatToString(CountOf(selected));
    ParseNatToString(CountOf(options));
  }

  /** Select-all then reads "All" (or "None" when there are no options), and
      deselect-all reads "None". */
  lemma SelectAllThenLabel(isOpen: bool, options: seq<SetOption>)
    ensures var c := ToggleSetsCollapse(Triggered(SelectAllButton + ".n_clicks"), isOpen, options);
      && c.selection.Set?
      && SelectionLabel(Some(c.selection.value), Some(options))
         == if |options| > 0 then Badge("All", "success") else Badge("None", "danger")
    ensures var c := ToggleSetsCollapse(Triggered(DeselectAllButton + ".n_clicks"), isOpen, options);
      && c.selection.Set?
      && SelectionLabel(Some(c.selection.value), Some(options)) == Badge("None", "danger")
  {
    ComponentOfClicks(SelectAllButton);
    ComponentOfClicks(DeselectAllButton);
  }

  // ---------------------------------------------------------------------
  // style and selection filter

  const StyleSeparator: string := " - "

  /** `p.strip().lower()`. */
  function StylePart(p: string): string
  {
    Lower(Strip(p))
  }

  /** A set's style: the second `" - "` segment of its name, stripped and
      lower-cased, or `""` for a name with a single segment. */
  function SetStyle(name: string): (style: string)
    ensures (forall j :: !OccursAt(name, StyleSeparator, j)) ==> style == ""
  {
    var parts := Map(Split(name, StyleSeparator), StylePart);
    if |parts| > 1 then parts[1] else ""
  }

  /** A name `<date> - <style>` has that style, whatever spacing the style
      carries. */
  lemma StyleOfTagged(date: string, style: string)
    requires ' ' !in date
    requires forall j :: !OccursAt(style, StyleSeparator, j)
    ensures SetStyle(date + StyleSeparator + style) == StylePart(style)
  {
    SplitFirst(date, StyleSeparator, style);
    assert FindFrom(style, StyleSeparator, 0).None?;
  }

  /** Further segments after the style do not matter. */
  lemma StyleOfLongerName(date: string, style: string, rest: string)
    requires ' ' !in date && ' ' !in style
    ensures SetStyle(date + StyleSeparator + style + StyleSeparator + rest) == StylePart(style)
  {
    SplitFirst(style, StyleSeparator, rest);
    assert date + StyleSeparator + style + StyleSeparator + rest
        == date + StyleSeparator + (style + StyleSeparator + rest);
    SplitFirst(date, StyleSeparator, style + StyleSeparator + rest);
  }

  function StyleAmong(styles: seq<string>): (p: Playlist -> bool)
  {
    (pl: Playlist) => SetStyle(pl.name) in styles
  }

  /** `valid_ids`: the ids of the party sets whose style is among the chosen
      styles, in party-set order. */
  function ValidIds(partySets: seq<Playlist>, styles: seq<string>): (r: seq<int>)
    ensures |r| <= |partySets|
    ensures forall id :: id in r <==>
      exists i :: 0 <= i < |partySets| && partySets[i].id == id && SetStyle(partySets[i].name) in styles
  {
    var kept := Filter(partySets, StyleAmong(styles));
    var r := Map(kept, PlaylistId);
    forall id | id in r
      ensures exists i :: 0 <= i < |partySets| && partySets[i].id == id && SetStyle(partySets[i].name) in styles
    {
      var k :| 0 <= k < |r| && r[k] == id;
      assert kept[k] in partySets;
    }
    forall i | 0 <= i < |partySets| && SetStyle(partySets[i].name) in styles
      ensures partySets[i].id in r
    {
      assert partySets[i] in kept;
      var k :| 0 <= k < |kept| && kept[k] == partySets[i];
      assert r[k] == partySets[i].id;
    }
    r
  }

  function InSeq(valid: seq<int>): (p: int -> bool)
  {
    (id: int) => id in valid
  }

  /** The set's date lies within the optional inclusive bounds; an undated
      set never does. */
  predicate InWindow(d: Option<Date>, start: Option<Date>, end: Option<Date>)
  {
    && d.Some?
    && !(start.Some? && Before(d.value, start.value))
    && !(end.Some? && Before(end.value, d.value))
  }

  function Dated(m: map<int, Option<Date>>, start: Option<Date>, end: Option<Date>): (p: int -> bool)
  {
    (id: int) => InWindow(DateOf(m, id), start, end)
  }

  /** The date filter: the ids whose set date lies within the bounds, in
      their original order. */
  function FilterByDate(ids: seq<int>, m: map<int, Option<Date>>, start: Option<Date>, end: Option<Date>): (r: seq<int>)
    ensures |r| <= |ids|
    ensures forall id :: id in r <==> id in ids && InWindow(DateOf(m, id), start, end)
  {
    Filter(ids, Dated(m, start, end))
  }

  /** Inclusive bounds: a date within the window is no earlier than the start
      and no later than the end. */
  lemma InWindowInclusive(d: Date, start: Option<Date>, end: Option<Date>)
    ensures InWindow(Some(d), start, end) <==>
      (start.None? || NotAfter(start.value, d)) && (end.None? || NotAfter(d, end.value))
  {
  }

  /** The date filter works id by id, so it keeps the selection order. */
  lemma FilterByDateConcat(a: seq<int>, b: seq<int>, m: map<int, Option<Date>>, start: Option<Date>, end: Option<Date>)
    ensures FilterByDate(a + b, m, start, end) == FilterByDate(a, m, start, end) + FilterByDate(b, m, start, end)
  {
    FilterConcat(a, b, Dated(m, start, end));
  }

  /** Filtering twice by the same window changes nothing more. */
  lemma {:induction false} FilterByDateIdempotent(ids: seq<int>, m: map<int, Option<Date>>, start: Option<Date>, end: Option<Date>)
    ensures FilterByDate(FilterByDate(ids, m, start, end), m, start, end) == FilterByDate(ids, m, start, end)
  {
    if |ids| > 0 {
      var p := Dated(m, start, end);
      FilterByDateIdempotent(ids[1..], m, start, end);
      var head := if p(ids[0]) then [ids[0]] else [];
      assert FilterByDate(ids, m, start, end) == head + FilterByDate(ids[1..], m, start, end);
      FilterConcat(head, FilterByDate(ids[1..], m, start, end), p);
      FilterSingleton(ids[0], p);
    }
  }

  /** The chosen set ids: the selected ids that are style-valid and whose
      date lies in the window, in selection order; nothing when nothing is
      selected. */
  function SelectedSets(styles: seq<string>, selected: Option<seq<int>>, start: Option<Date>, end: Option<Date>,
                        partySets: seq<Playlist>, m: map<int, Option<Date>>): (r: seq<int>)
    ensures selected.None? ==> r == []
    ensures forall id :: id in r <==>
      && selected.Some? && id in selected.value
      && (exists i :: 0 <= i < |partySets| && partySets[i].id == id && SetStyle(partySets[i].name) in styles)
      && InWindow(DateOf(m, id), start, end)
  {
    if selected.None? || |selected.value| == 0 then []
    else KeptIds(selected.value, ValidIds(partySets, styles), m, start, end)
  }

  /** The ids among `valid` whose date lies in the window, in order. */
  function KeptIds(ids: seq<int>, valid: seq<int>, m: map<int, Option<Date>>, start: Option<Date>, end: Option<Date>): (r: seq<int>)
    ensures forall id :: id in r <==> id in ids && id in valid && InWindow(DateOf(m, id), start, end)
  {
    FilterByDate(Filter(ids, InSeq(valid)), m, start, end)
  }

  lemma KeptIdsConcat(a: seq<int>, b: seq<int>, valid: seq<int>, m: map<int, Option<Date>>, start: Option<Date>, end: Option<Date>)
    ensures KeptIds(a + b, valid, m, start, end) == KeptIds(a, valid, m, start, end) + KeptIds(b, valid, m, start, end)
  {
    var p := InSeq(valid);
    FilterConcat(a, b, p);
    FilterByDateConcat(Filter(a, p), Filter(b, p), m, start, end);
  }

  /** The selection is filtered id by id: the kept ids come in selection
      order, and an id selected twice is kept twice. */
  lemma SelectedSetsConcat(styles: seq<string>, a: seq<int>, b: seq<int>, start: Option<Date>, end: Option<Date>,
                           partySets: seq<Playlist>, m: map<int, Option<Date>>)
    ensures SelectedSets(styles, Some(a + b), start, end, partySets, m)
         == SelectedSets(styles, Some(a), start, end, partySets, m) + SelectedSets(styles, Some(b), start, end, partySets, m)
  {
    if |a| == 0 {
      assert a + b == b;
    } else if |b| == 0 {
      assert a + b == a;
    } else {
      var valid := ValidIds(partySets, styles);
      SelectedSetsAreKept(styles, a + b, start, end, partySets, m);
      SelectedSetsAreKept(styles, a, start, end, partySets, m);
      SelectedSetsAreKept(styles, b, start, end, partySets, m);
      KeptIdsConcat(a, b, valid, m, start, end);
    }
  }

  lemma SelectedSetsAreKept(styles: seq<string>, sel: seq<int>, start: Option<Date>, end: Option<Date>,
                            partySets: seq<Playlist>, m: map<int, Option<Date>>)
    requires |sel| > 0
    ensures SelectedSets(styles, Some(sel), start, end, partySets, m) == KeptIds(sel, ValidIds(partySets, styles), m, start, end)
  {
  }

  /** A single selected id is kept exactly when its set has a chosen style
      and a date in the window. */
  lemma SelectedSetsSingleton(styles: seq<string>, id: int, start: Option<Date>, end: Option<Date>,
                              partySets: seq<Playlist>, m: map<int, Option<Date>>)
    ensures SelectedSets(styles, Some([id]), start, end, partySets, m)
         == if (exists i :: 0 <= i < |partySets| && partySets[i].id == id && SetStyle(partySets[i].name) in styles)
               && InWindow(DateOf(m, id), start, end)
            then [id] else []
  {
    var r := SelectedSets(styles, Some([id]), start, end, partySets, m);
    assert |r| <= 1;
    if |r| == 1 {
      assert r[0] in r;
    } else {
      assert id !in r;
    }
  }

  // ---------------------------------------------------------------------
  // collecting the track rows

  function WithDate(d: Option<Date>): (f: Track -> Row)
  {
    (t: Track) => Row(t, d)
  }

  /** The rows of one set: its tracks, each tagged with the set's date. */
  function SetRows(id: int, m: map<int, Option<Date>>, tracksFor: int -> seq<Track>): (r: seq<Row>)
    ensures |r| == |tracksFor(id)|
    ensures forall i :: 0 <= i < |r| ==> r[i].track == tracksFor(id)[i] && r[i].setDate == DateOf(m, id)
  {
    Map(tracksFor(id), WithDate(DateOf(m, id)))
  }

  function TrackCount(tracksFor: int -> seq<Track>): (f: int -> int)
  {
    (id: int) => |tracksFor(id)|
  }

  /** `all_tracks`: the tracks of the sets in order, each tagged with its
      set's date. The playlist query is the parameter `tracksFor`. */
  function CollectRows(ids: seq<int>, m: map<int, Option<Date>>, tracksFor: int -> seq<Track>): (r: seq<Row>)
    ensures |r| == SumOf(ids, TrackCount(tracksFor))
    ensures forall i :: 0 <= i < |r| ==>
      exists j :: 0 <= j < |ids| && r[i].setDate == DateOf(m, ids[j]) && r[i].track in tracksFor(ids[j])
  {
    if |ids| == 0 then []
    else
      var here := SetRows(ids[0], m, tracksFor);
      var rest := CollectRows(ids[1..], m, tracksFor);
      var r := here + rest;
      forall i | 0 <= i < |r|
        ensures exists j :: 0 <= j < |ids| && r[i].setDate == DateOf(m, ids[j]) && r[i].track in tracksFor(ids[j])
      {
        if i < |here| {
          assert r[i] == here[i];
        } else {
          assert r[i] == rest[i - |here|];
          var j :| 0 <= j < |ids[1..]| && rest[i - |here|].setDate == DateOf(m, ids[1..][j])
            && rest[i - |here|].track in tracksFor(ids[1..][j]);
          assert ids[1..][j] == ids[j + 1];
        }
      }
      r
  }

  /** Collecting works set by set. */
  lemma {:induction false} CollectRowsConcat(a: seq<int>, b: seq<int>, m: map<int, Option<Date>>, tracksFor: int -> seq<Track>)
    ensures CollectRows(a + b, m, tracksFor) == CollectRows(a, m, tracksFor) + CollectRows(b, m, tracksFor)
  {
    if |a| == 0 {
      assert a + b == b;
    } else {
      assert (a + b)[1..] == a[1..] + b;
      assert (a + b)[0] == a[0];
      CollectRowsConcat(a[1..], b, m, tracksFor);
      CollectRowsCons(a + b, m, tracksFor);
      CollectRowsCons(a, m, tracksFor);
      ConcatAssoc(SetRows(a[0], m, tracksFor), CollectRows(a[1..], m, tracksFor), CollectRows(b, m, tracksFor));
    }
  }

  /** The rows of the first set come first. */
  lemma CollectRowsCons(ids: seq<int>, m: map<int, Option<Date>>, tracksFor: int -> seq<Track>)
    requires |ids| > 0
    ensures CollectRows(ids, m, tracksFor) == SetRows(ids[0], m, tracksFor) + CollectRows(ids[1..], m, tracksFor)
  {
  }

  // ---------------------------------------------------------------------
  // counting statistics

  function ArtistAlbumTitle(r: Row): (string, string, string)
  {
    (r.track.artist, r.track.album, r.track.title)
  }

  /** `next((p for p in party_sets if p["id"] == pid), None)`. */
  function FirstWithId(ps: seq<Playlist>, id: int): (r: Option<Playlist>)
    ensures r.None? <==> forall i :: 0 <= i < |ps| ==> ps[i].id != id
    ensures r.Some? ==> exists i :: (0 <= i < |ps| && ps[i] == r.value && r.value.id == id
      && forall j :: 0 <= j < i ==> ps[j].id != id)
  {
    if |ps| == 0 then None
    else if ps[0].id == id then Some(ps[0])
    else
      var r := FirstWithId(ps[1..], id);
      assert forall i :: 1 <= i < |ps| ==> ps[i] == ps[1..][i - 1];
      if r.Some? then
        var i :| 0 <= i < |ps[1..]| && ps[1..][i] == r.value && r.value.id == id
          && forall j :: 0 <= j < i ==> ps[1..][j].id != id;
        assert ps[i + 1] == r.value;
        r
      else r
  }

  /** The set `id` is found among the party sets and has style `style`. */
  predicate HasStyle(ps: seq<Playlist>, style: string, id: int)
  {
    var pl := FirstWithId(ps, id);
    pl.Some? && SetStyle(pl.value.name) == style
  }

  function StyleIs(ps: seq<Playlist>, style: string): (p: int -> bool)
  {
    (id: int) => HasStyle(ps, style, id)
  }

  datatype StyleTally = StyleTally(blues: nat, lindy: nat)

  /** `blues` and `lindy` count the ids whose set has that style, together
      at most all of them. */
  predicate CountsStyles(blues: nat, lindy: nat, ids: seq<int>, ps: seq<Playlist>)
  {
    && blues == |Filter(ids, StyleIs(ps, "blues"))|
    && lindy == |Filter(ids, StyleIs(ps, "lindy"))|
    && blues + lindy <= |ids|
  }

  /** The blues and lindy counters over the chosen sets: each set counts for
      at most one style, so the two counts never exceed the number of sets;
      each equals the number of sets of that style. */
  function StyleCounts(ids: seq<int>, ps: seq<Playlist>): (r: StyleTally)
    ensures CountsStyles(r.blues, r.lindy, ids, ps)
  {
    if |ids| == 0 then StyleTally(0, 0)
    else
      var rest := StyleCounts(ids[1..], ps);
      var pl := FirstWithId(ps, ids[0]);
      var style := if pl.Some? then SetStyle(pl.value.name) else "";
      if pl.Some? && style == "blues" then StyleTally(rest.blues + 1, rest.lindy)
      else if pl.Some? && style == "lindy" then StyleTally(rest.blues, rest.lindy + 1)
      else StyleTally(rest.blues, rest.lindy)
  }

  /** The integer cards of the dashboard. */
  datatype Stats = Stats(totalSongs: nat, bluesSets: nat, lindySets: nat, uniqueSongs: nat,
                         uniqueArtists: nat, topArtist: Option<string>, topSong: Option<TopSongInfo>)

  /** What the cards say about the rows and their artist credits: the total
      is the row count; the unique songs are the distinct (artist, album,
      title) keys, at least one when there are rows; the unique artists are
      the credited artists; the top artist and top song are missing exactly
      when there is nothing to count. */
  predicate CountsRows(s: Stats, rows: seq<Row>, credits: seq<Credit>)
  {
    && s.totalSongs == |rows|
    && s.uniqueSongs <= s.totalSongs && (s.totalSongs > 0 ==> s.uniqueSongs > 0)
    && s.uniqueSongs == |KeySet(rows, ArtistAlbumTitle)|
    && s.uniqueArtists == |PlayedArtists(credits)|
    && (s.topArtist.None? <==> |credits| == 0)
    && (s.topSong.None? <==> |rows| == 0)
  }

  /** The statistics over the collected rows of the chosen sets. */
  function ComputeStats(rows: seq<Row>, ids: seq<int>, ps: seq<Playlist>, split: string -> seq<string>): (s: Stats)
    ensures CountsRows(s, rows, Explode(rows, split))
    ensures CountsStyles(s.bluesSets, s.lindySets, ids, ps)
    ensures s.topArtist == TopArtist(Explode(rows, split)) && s.topSong == TopSong(rows)
  {
    StatsOf(rows, Explode(rows, split), ids, ps)
  }

  /** The cards over the rows, their artist credits and the chosen ids. */
  function StatsOf(rows: seq<Row>, credits: seq<Credit>, ids: seq<int>, ps: seq<Playlist>): (s: Stats)
    ensures CountsRows(s, rows, credits)
    ensures CountsStyles(s.bluesSets, s.lindySets, ids, ps)
    ensures s.topArtist == TopArtist(credits) && s.topSong == TopSong(rows)
  {
    var styles := StyleCounts(ids, ps);
    RowStats(rows, credits, styles.blues, styles.lindy)
  }

  /** The cards over the rows and their artist credits, given the style
      counts. */
  function RowStats(rows: seq<Row>, credits: seq<Credit>, blues: nat, lindy: nat): (s: Stats)
    ensures CountsRows(s, rows, credits)
    ensures s.bluesSets == blues && s.lindySets == lindy
    ensures s.topArtist == TopArtist(credits) && s.topSong == TopSong(rows)
  {
    CountDistinctIsCard(rows, ArtistAlbumTitle);
    UniqueArtistsCount(credits);
    Stats(|rows|, blues, lindy, CountDistinct(rows, ArtistAlbumTitle),
          CountDistinct(credits, CreditArtist), TopArtist(credits), TopSong(rows))
  }

  /** `nunique` of the credited artists is the number of played artists. */
  lemma UniqueArtistsCount(credits: seq<Credit>)
    ensures CountDistinct(credits, CreditArtist) == |PlayedArtists(credits)|
  {
    CountDistinctIsCard(credits, CreditArtist);
    assert PlayedArtists(credits) == KeySet(credits, CreditArtist);
  }

  /** The text cards, in display order. */
  function Cards(s: Stats): (r: seq<string>)
    ensures |r| == 7
  {
    [ "Total Songs: " + NatToString(s.totalSongs),
      "Blues Sets: " + NatToString(s.bluesSets),
      "Lindy Sets: " + NatToString(s.lindySets),
      "Unique Songs: " + NatToString(s.uniqueSongs),
      "Unique Artists: " + NatToString(s.uniqueArtists),
      "Top Played Artist: " + (if s.topArtist.Some? then s.topArtist.value else "-"),
      "Top Played Song: " + TopSongText(s.topSong) ]
  }

  // ---------------------------------------------------------------------
  // artist table

  /** The artist table: one row per credited artist with its plays and
      distinct titles, the most played first, ranked 1..n. */
  function ArtistTable(credits: seq<Credit>): (r: seq<ArtistPlays>)
    ensures |r| == CountDistinct(credits, CreditArtist)
    ensures forall i :: 0 <= i < |r| ==> r[i].rank == i + 1
    ensures IsTally(r, credits, CreditArtist, CreditTitle)
  {
    var t := TallyBy(credits, CreditArtist, CreditTitle);
    RankedTally(t, credits, CreditArtist, CreditTitle);
    RankArtists(t)
  }

  /** The top played artist card names an artist with the play count at the
      head of the artist table. */
  lemma TopArtistHeadsArtistTable(credits: seq<Credit>)
    requires |credits| > 0
    ensures |ArtistTable(credits)| > 0
    ensures |Select(credits, CreditArtist, TopArtist(credits).value)| == ArtistTable(credits)[0].plays
  {
    HeadIsTop(credits, ArtistTable(credits), TopArtist(credits).value);
  }

  lemma HeadIsTop(credits: seq<Credit>, t: seq<ArtistPlays>, top: string)
    requires |credits| > 0
    requires forall k :: 0 <= k < |credits| ==> credits[k].artist in Artists(t)
    requires forall j :: 0 <= j < |t| ==> TalliesRows(t[j], credits, CreditArtist, CreditTitle)
    requires forall a, b :: 0 <= a < b < |t| ==> t[a].plays >= t[b].plays
    requires exists i :: 0 <= i < |credits| && credits[i].artist == top
    requires forall i :: 0 <= i < |credits| ==>
      |Select(credits, CreditArtist, credits[i].artist)| <= |Select(credits, CreditArtist, top)|
    ensures |t| > 0 && |Select(credits, CreditArtist, top)| == t[0].plays
  {
    assert credits[0].artist in Artists(t);
    HeadAtMostTop(credits, t[0], top);
    var i :| 0 <= i < |credits| && credits[i].artist == top;
    TopAtMostHead(credits, t, i);
  }

  /** The head of the table counts an artist's credits, and no artist is
      credited more often than the top one. */
  lemma HeadAtMostTop(credits: seq<Credit>, head: ArtistPlays, top: string)
    requires TalliesRows(head, credits, CreditArtist, CreditTitle)
    requires forall i :: 0 <= i < |credits| ==>
      |Select(credits, CreditArtist, credits[i].artist)| <= |Select(credits, CreditArtist, top)|
    ensures head.plays <= |Select(credits, CreditArtist, top)|
  {
    TalliedArtist(credits, head);
    var k :| 0 <= k < |credits| && credits[k].artist == head.artist;
    assert |Select(credits, CreditArtist, credits[k].artist)| <= |Select(credits, CreditArtist, top)|;
  }

  /** Any credited artist has a row in the table, which the head outplays. */
  lemma TopAtMostHead(credits: seq<Credit>, t: seq<ArtistPlays>, i: nat)
    requires i < |credits|
    requires forall k :: 0 <= k < |credits| ==> credits[k].artist in Artists(t)
    requires forall j :: 0 <= j < |t| ==> TalliesRows(t[j], credits, CreditArtist, CreditTitle)
    requires forall a, b :: 0 <= a < b < |t| ==> t[a].plays >= t[b].plays
    ensures |t| > 0 && |Select(credits, CreditArtist, credits[i].artist)| <= t[0].plays
  {
    assert credits[i].artist in Artists(t);
    var j :| 0 <= j < |t| && Artists(t)[j] == credits[i].artist;
    assert TalliesRows(t[j], credits, CreditArtist, CreditTitle);
    assert j == 0 || t[0].plays >= t[j].plays;
  }

  /** A tallied artist is credited on some row, as often as the tally says. */
  lemma TalliedArtist(credits: seq<Credit>, a: ArtistPlays)
    requires TalliesRows(a, credits, CreditArtist, CreditTitle)
    ensures exists k :: 0 <= k < |credits| && credits[k].artist == a.artist
    ensures a.plays == |Select(credits, CreditArtist, a.artist)|
  {
    SelectWitness(credits, CreditArtist, a.artist);
  }

  // ---------------------------------------------------------------------
  // update_aggregate_dashboard

  /** The outputs of the dashboard that this model covers: the text cards
      and the played-songs, artist and unplayed-artist tables. */
  datatype Dashboard = Dashboard(cards: seq<string>, played: seq<PlayedSong>,
                                 artists: seq<ArtistPlays>, unplayed: seq<string>)

  /** `_empty_aggregate`: zero counts, `-` for the top artist and song, and
      empty tables. */
  function EmptyAggregate(): (r: Dashboard)
    ensures r.played == [] && r.artists == [] && r.unplayed == []
    ensures |r.cards| == 7 && r.cards[0] == "Total Songs: 0"
  {
    Dashboard(["Total Songs: 0", "Blues Sets: 0", "Lindy Sets: 0", "Unique Songs: 0",
               "Unique Artists: 0", "Top Played Artist: -", "Top Played Song: -"], [], [], [])
  }

  /** The placeholders are what the cards show for zero counts and no top
      artist or song. */
  lemma EmptyIsZeroStats()
    ensures EmptyAggregate().cards == Cards(Stats(0, 0, 0, 0, 0, None, None))
  {
    var zero := NatToString(0);
    assert zero == "0" by {
      assert DigitChar(0) == '0';
    }
    var c := Cards(Stats(0, 0, 0, 0, 0, None, None));
    assert c[0] == "Total Songs: 0";
    assert c[1] == "Blues Sets: 0";
    assert c[2] == "Lindy Sets: 0";
    assert c[3] == "Unique Songs: 0";
    assert c[4] == "Unique Artists: 0";
    assert c[5] == "Top Played Artist: -";
    assert c[6] == "Top Played Song: -";
  }

  /** The dashboard over a non-empty set of collected rows. */
  function FullDashboard(rows: seq<Row>, ids: seq<int>, partySets: seq<Playlist>,
                         split: string -> seq<string>, library: seq<string>): (r: Dashboard)
    requires |rows| > 0
    ensures |r.cards| == 7 && r.cards[0] != "Total Songs: 0"
    ensures r.cards[0] == "Total Songs: " + NatToString(|rows|)
    ensures SumOf(r.played, TimesPlayed) == |rows|
    ensures SumOf(r.artists, Plays) == |Explode(rows, split)|
    ensures forall a :: a in r.unplayed <==> a in library && a !in PlayedArtists(Explode(rows, split))
    ensures r.cards == Cards(ComputeStats(rows, ids, partySets, split))
    ensures r.played == PlayedSongsTable(rows) && r.artists == ArtistTable(Explode(rows, split))
    ensures r.unplayed == UnplayedArtists(library, Explode(rows, split))
  {
    DashboardOf(rows, Explode(rows, split), ComputeStats(rows, ids, partySets, split), library)
  }

  /** The dashboard over the rows and their credits, given the cards' values. */
  function DashboardOf(rows: seq<Row>, credits: seq<Credit>, stats: Stats, library: seq<string>): (r: Dashboard)
    requires |rows| > 0 && stats.totalSongs == |rows|
    ensures |r.cards| == 7 && r.cards[0] != "Total Songs: 0"
    ensures r.cards[0] == "Total Songs: " + NatToString(|rows|)
    ensures SumOf(r.played, TimesPlayed) == |rows|
    ensures SumOf(r.artists, Plays) == |credits|
    ensures forall a :: a in r.unplayed <==> a in library && a !in PlayedArtists(credits)
    ensures r.cards == Cards(stats)
    ensures r.played == PlayedSongsTable(rows) && r.artists == ArtistTable(credits)
    ensures r.unplayed == UnplayedArtists(library, credits)
  {
    TotalSongsCardNonZero(|rows|);
    Dashboard(Cards(stats), PlayedSongsTable(rows), ArtistTable(credits), UnplayedArtists(library, credits))
  }

  /** `update_aggregate_dashboard`. The shared data are parameters: the party
      sets, the id-to-date map, the playlist query `tracksFor`, the artist
      splitter `split` and the library artists. The dashboard is the empty
      one exactly when the chosen sets hold no tracks; otherwise the played
      counts add up to the total songs card and the unplayed artists are the
      library artists nobody was credited with. */
  function UpdateAggregateDashboard(styles: seq<string>, selected: Option<seq<int>>,
                                    start: Option<Date>, end: Option<Date>,
                                    partySets: seq<Playlist>, m: map<int, Option<Date>>,
                                    tracksFor: int -> seq<Track>, split: string -> seq<string>,
                                    library: seq<string>): (r: Dashboard)
    ensures var rows := CollectRows(SelectedSets(styles, selected, start, end, partySets, m), m, tracksFor);
      r == EmptyAggregate() <==> |rows| == 0
  {
    var ids := SelectedSets(styles, selected, start, end, partySets, m);
    var rows := CollectRows(ids, m, tracksFor);
    if |rows| == 0 then EmptyAggregate()
    else
      FullDashboard(rows, ids, partySets, split, library)
  }

  /** Over a non-empty selection the outputs agree with one another: the
      cards are those of the statistics over the collected rows, the played
      table is the played-songs table of those rows and its counts add up to
      the total songs card, the artist table is the table of their credits
      and its plays add up to the number of credits, and the unplayed
      artists are the library artists nobody was credited with. */
  lemma AggregateDashboardConsistent(styles: seq<string>, selected: Option<seq<int>>,
                                     start: Option<Date>, end: Option<Date>,
                                     partySets: seq<Playlist>, m: map<int, Option<Date>>,
                                     tracksFor: int -> seq<Track>, split: string -> seq<string>,
                                     library: seq<string>)
    requires |CollectRows(SelectedSets(styles, selected, start, end, partySets, m), m, tracksFor)| > 0
    ensures var ids := SelectedSets(styles, selected, start, end, partySets, m);
      var rows := CollectRows(ids, m, tracksFor);
      var r := UpdateAggregateDashboard(styles, selected, start, end, partySets, m, tracksFor, split, library);
      && r.cards == Cards(ComputeStats(rows, ids, partySets, split))
      && r.played == PlayedSongsTable(rows)
      && r.artists == ArtistTable(Explode(rows, split))
      && r.cards[0] == "Total Songs: " + NatToString(|rows|)
      && SumOf(r.played, TimesPlayed) == |rows|
      && SumOf(r.artists, Plays) == |Explode(rows, split)|
      && forall a :: a in r.unplayed <==> a in library && a !in PlayedArtists(Explode(rows, split))
  {
    var ids := SelectedSets(styles, selected, start, end, partySets, m);
    var rows := CollectRows(ids, m, tracksFor);
    assert UpdateAggregateDashboard(styles, selected, start, end, partySets, m, tracksFor, split, library)
        == FullDashboard(rows, ids, partySets, split, library);
  }

  /** A positive total never renders as the empty card. */
  lemma TotalSongsCardNonZero(n: nat)
    requires n > 0
    ensures "Total Songs: " + NatToString(n) != "Total Songs: 0"
  {
    var a := "Total Songs: " + NatToString(n);
    if |NatToString(n)| == 1 {
      assert a[|a| - 1] == NatToString(n)[0];
      assert NatToString(n)[0] != '0' by {
        ParseNatToString(n);
      }
    }
  }
}
