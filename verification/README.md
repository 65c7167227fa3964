# Mixxx set statistics — a Dafny model

This project models the pure logic of a Dash dashboard over a Mixxx DJ
database. The dashboard:

- reads party sets from playlist names, which start with a date such as
  `03/14/2024 - Blues - Venue`;
- filters the sets by style, selection and an inclusive date window;
- counts and ranks the songs and artists played in them;
- lists the library artists that were never played;
- shows the crate hierarchy, the songs in no crate, and a rating histogram
  for the library.

Every operation is a pure function over immutable records. The SQLite
queries, the artist splitter and the shared data are parameters. Dash
callback outputs are `Update<T>` values: `NoUpdate` stands for Dash's
`no_update` or `PreventUpdate`, and `Set(v)` for a new value.

Modules:

- `Seqs`: filtering, mapping, sums, `Option`, `Update`.
- `Text`: decimal digits, `f"{n:02d}"`, `str.split`/`join`/`strip`/`lower`.
- `Sorting`: sorting by a total preorder, string order.
- `Grouping`: pandas `groupby`, `nunique`, `unique`.
- `Dates`: proleptic Gregorian dates, the name-date regex and `strptime`.
- `Database`: `format_duration`, `join_dates`, `get_playlists`.
- `Shared`: party sets, id-to-date map, options, `default_start`.
- `Tables`: the played-songs and artist tables, top artist and song,
  unplayed artists.
- `Aggregate`: the aggregate tab's callbacks.
- `Crates`: the crates tab.
- `Library`: the library tab.
- `Callbacks`: the older individual-playlist and artist callbacks.

## Notes on the code

- Crate names are not resolved into a tree.
  - src/callbacks/crates.py:22 and :48 split each name on `-`, strip each
    piece and drop the empty ones.
  - The chart then pads the level columns with `None` up to the deepest
    crate.
  - No leaf crates are found, no intermediate path nodes are made up and
    no song counts are summed per path.
- The style of a party set (src/callbacks/aggregate.py:113-115) is the
  second piece of its name split on `" - "`, stripped and lower-cased. A
  set matches a chosen style only when that piece equals it.
- `clean_and_split_artists` is not part of this model, so the artist
  splitter is the parameter `split: string -> seq<string>`.

## Model

| member | source | states |
|---|---|---|
| Database.Trunc | src/database/database.py:135 | `int()` on a float truncates toward zero: the result is within 1 of the input and no farther from zero |
| Database.ClockFields | src/database/database.py:136-138 | hours*3600 + minutes*60 + seconds is the input; minutes and seconds lie in 0..59; hours is below 100 for inputs below 360000 |
| Database.FormatDuration | src/database/database.py:134-139 | for 0 <= seconds < 360000 the text is `HH:MM:SS`: three two-digit fields separated by colons, minutes and seconds below 60, together standing for the truncated seconds |
| Database.FormatDurationParsesBack | src/database/database.py:134-139 | reading the formatted text back as `H:M:S` gives the truncated seconds: formatting loses only the fraction |
| Database.FormatSecondsParsesBack | src/database/database.py:136-139 | every whole number of seconds, negative ones too, reads back from its `H:M:S` text |
| Database.ClockParsesBack | src/database/database.py:136-139 | any three fields written with `02d` and two colons read back as hours*3600 + minutes*60 + seconds |
| Database.DurationCell | src/callbacks/crates.py:67 | a missing duration shows "N/A"; a present one reads back as its truncated seconds |
| Database.NotAvailableUnparsed | src/callbacks/crates.py:67 | the placeholder "N/A" never reads as a duration, so a cell tells a missing duration from a present one |
| Database.FormatTrack | src/callbacks/callbacks.py:101-104 | a shown track keeps artist, title, album and rating; its duration is "N/A" exactly when missing, otherwise it reads back as whole seconds |
| Database.JoinDates | src/database/database.py:141-143 | the joined text is empty exactly when no date is present |
| Database.JoinDatesSplit | src/database/database.py:141-143 | splitting the joined text at ", " gives the sorted ISO dates, one per present date |
| Database.JoinDatesPermutation | src/database/database.py:141-143 | the joined text does not depend on the order of the input dates |
| Database.IsoFormatNoComma | src/database/database.py:142 | an ISO date never contains the separator's comma |
| Database.GetPlaylists | src/database/database.py:22-41 | one record per query row, in order, with id and name kept and the date read from the name; no regex match means no date |
| Dates.IsoFormat | src/database/database.py:142 | `YYYY-MM-DD`: 10 characters whose digit fields read back as year, month and day |
| Dates.NotAfterTotalOrder | src/callbacks/shared.py:9-15 | the date order used for sorting and `min` is total, transitive and antisymmetric |
| Dates.DaysInMonth | src/database/database.py:32 | every month has 28 to 31 days |
| Dates.MatchDatePrefix | src/database/database.py:23 | a match is a well-shaped `M/D/Y` prefix of the name (1-2, 1-2 and 2-4 digits) |
| Dates.MatchDatePrefixComplete | src/database/database.py:23 | any well-shaped prefix makes the regex match, with the same month and day and at least as many year digits |
| Dates.MatchDatePrefixExact | src/database/database.py:23 | when no further digit follows, the match is exactly the prefix |
| Dates.Strptime | src/database/database.py:30-35 | an accepted date has the text's month and day; `%Y` takes exactly 4 year digits, `%y` exactly 2, mapped into 1969..2068 |
| Dates.FormatsExclusive | src/database/database.py:30-35 | at most one of the two formats accepts a text; each accepts exactly its year width with a valid day of month |
| Dates.ParseNameDate | src/database/database.py:26-35 | no regex match means no date; a date comes from one of the two formats |
| Dates.ParseNameDateFourDigitYear | src/database/database.py:23-35 | a name starting with `M/D/YYYY` of a valid date yields that date |
| Dates.ParseNameDateTwoDigitYear | src/database/database.py:23-35 | a name starting with `M/D/YY` yields the date in 1969..2068 with those year digits |
| Dates.ThreeDigitYearRejected | src/database/database.py:23-35 | a 3-digit year matches the regex but neither format, so the playlist gets no date |
| Shared.PartySets | src/callbacks/shared.py:6 | the party sets are exactly the dated playlists, in order |
| Shared.PartySetsIdempotent | src/callbacks/shared.py:6 | filtering party sets again changes nothing |
| Shared.PartySetsConcat | src/callbacks/shared.py:6 | the filter works playlist by playlist |
| Shared.IdToDate | src/callbacks/shared.py:7 | the map's keys are exactly the ids of the sets, and the final set's id maps to the final set's date |
| Shared.IdToDateLastWins | src/callbacks/shared.py:7 | whatever the ids, every id maps to the date of the last set carrying it, as later dict entries overwrite earlier ones |
| Shared.IdToDateOwn | src/callbacks/shared.py:7 | with distinct ids, each set's id maps to its own date |
| Shared.IdToDateAllDated | src/callbacks/shared.py:6-7 | built from party sets, every mapped date is present |
| Shared.PartySetOptions | src/callbacks/shared.py:9-12 | the options are a permutation of one option per set, ordered by date, and the sort is stable: options whose sets share a date keep the order of those sets |
| Shared.OptionsChronological | src/callbacks/shared.py:6-12 | every option has a date in the map, and the dates never decrease along the dropdown |
| Shared.MinDate | src/callbacks/shared.py:15 | the minimum is one of the dates and no later than any of them |
| Shared.DefaultStart | src/callbacks/shared.py:14-18 | none exactly when no playlist is dated; otherwise the ISO text of an earliest date |
| Shared.DefaultStartIsFirstOption | src/callbacks/shared.py:9-18 | with distinct playlist ids, the default start is the ISO date of the first option |
| Shared.DefaultStartIsEarliest | src/callbacks/shared.py:14-18 | a date that some playlist carries and that no dated playlist precedes is the default start |
| Shared.PartySetsDistinct | src/callbacks/shared.py:6 | distinct playlist ids stay distinct among the party sets |
| Aggregate.ToggleSetsCollapse | src/callbacks/aggregate.py:31-48 | no trigger keeps the state; the collapse button flips it; select-all opens and selects every option value in order; deselect-all opens and selects nothing; anything else keeps the state |
| Aggregate.ComponentOfClicks | src/callbacks/aggregate.py:36 | the component of `button.n_clicks` is the button id |
| Aggregate.CollapseTwice | src/callbacks/aggregate.py:38-39 | two collapse clicks restore the open state |
| Aggregate.SelectionLabel | src/callbacks/aggregate.py:62-71 | "danger"/"None" exactly when nothing is selected; "success"/"All" exactly when all are; "warning" otherwise |
| Aggregate.SelectionLabelParsesBack | src/callbacks/aggregate.py:71 | the `count/total` text splits into the two counts |
| Aggregate.SelectAllThenLabel | src/callbacks/aggregate.py:41-71 | after select-all the badge says "All" (or "None" with no options); after deselect-all it says "None" |
| Aggregate.SetStyle | src/callbacks/aggregate.py:113-114 | a name without `" - "` has no style |
| Aggregate.StyleOfTagged | src/callbacks/aggregate.py:113-114 | `date - style` has the stripped, lower-cased style |
| Aggregate.StyleOfLongerName | src/callbacks/aggregate.py:113-114 | later pieces do not affect the style |
| Aggregate.ValidIds | src/callbacks/aggregate.py:111-116 | an id is valid exactly when some party set with that id has a style in the chosen styles |
| Aggregate.FilterByDate | src/callbacks/aggregate.py:127-135 | an id is kept exactly when it was selected and its set date exists and lies in the window |
| Aggregate.InWindowInclusive | src/callbacks/aggregate.py:131-134 | both bounds are inclusive and optional |
| Aggregate.FilterByDateConcat | src/callbacks/aggregate.py:128-135 | the filter works id by id, keeping the selection order |
| Aggregate.FilterByDateIdempotent | src/callbacks/aggregate.py:128-135 | filtering twice equals filtering once |
| Aggregate.SelectedSets | src/callbacks/aggregate.py:111-137 | no selection gives nothing; an id is kept exactly when selected, style-valid and dated in the window |
| Aggregate.SelectedSetsConcat | src/callbacks/aggregate.py:111-135 | the selection is filtered id by id: kept ids stay in selection order, and an id selected twice is kept twice |
| Aggregate.SelectedSetsSingleton | src/callbacks/aggregate.py:111-135 | a single selected id is kept, once, exactly when its set has a chosen style and a date in the window |
| Aggregate.SetRows | src/callbacks/aggregate.py:142-146 | a set's rows are its tracks in order, each tagged with the set's date |
| Aggregate.CollectRows | src/callbacks/aggregate.py:140-146 | the row count is the sum of the sets' track counts; each row is a track of some selected set, tagged with that set's date |
| Aggregate.CollectRowsConcat | src/callbacks/aggregate.py:141-146 | collection works set by set, in order |
| Aggregate.FirstWithId | src/callbacks/aggregate.py:175 | none exactly when no set has the id; otherwise the first set with it |
| Aggregate.StyleCounts | src/callbacks/aggregate.py:169-182 | blues and lindy count the ids whose set has that style; together at most the number of ids |
| Aggregate.ComputeStats | src/callbacks/aggregate.py:163-193 | total is the row count; blues and lindy count the chosen ids whose set has that style; unique songs is the number of distinct (artist, album, title), positive when there are rows; unique artists is the number of credited artists; the top artist and top song are `TopArtist` of the credits and `TopSong` of the rows, so each has a maximal count and is missing exactly when there is nothing to count |
| Aggregate.ArtistTable | src/callbacks/aggregate.py:400-411 | one row per exploded artist, ranked 1..n, plays descending, distinct titles at most plays, plays summing to the credit count |
| Aggregate.TopArtistHeadsArtistTable | src/callbacks/aggregate.py:185 | the top played artist has as many plays as the first row of the artist table |
| Aggregate.EmptyAggregate | src/callbacks/aggregate.py:501-506 | empty tables and seven placeholder cards starting with "Total Songs: 0" |
| Aggregate.EmptyIsZeroStats | src/callbacks/aggregate.py:501-506 | the placeholders are the cards of zero counts with no top artist or song |
| Aggregate.FullDashboard | src/callbacks/aggregate.py:163-498 | with rows the total card is non-zero; the cards are those of `ComputeStats`, the played table is `PlayedSongsTable` of the rows and the artist table is `ArtistTable` of their credits, so their plays account for every row and credit; unplayed is the library minus the played artists |
| Aggregate.UpdateAggregateDashboard | src/callbacks/aggregate.py:104-148 | the empty dashboard is returned exactly when no rows are collected |
| Aggregate.AggregateDashboardConsistent | src/callbacks/aggregate.py:104-498 | with rows, the seven cards are those of the statistics over the collected rows; the played table is their played-songs table and its plays sum to the total; the artist table is the table of their credits and its plays sum to the credit count; the unplayed list is the library minus the credited artists |
| Aggregate.TotalSongsCardNonZero | src/callbacks/aggregate.py:479 | a positive total never shows as the empty placeholder |
| Tables.MaxRating | src/callbacks/aggregate.py:355 | the max skips missing ratings: none exactly when all are missing, else a rating present and at least every other |
| Tables.PlayedSongsTable | src/callbacks/aggregate.py:352-396 | one row per distinct (artist, title), ranked 1..n by descending plays, each row summarizing exactly its group, covering every row, plays summing to the row count |
| Tables.TopSong | src/callbacks/aggregate.py:188-193 | none exactly when there are no rows; otherwise a song whose play count is maximal |
| Tables.TopSongHeadsTable | src/callbacks/aggregate.py:188-193 | the top song's count is the first played-songs row's count |
| Tables.TallyBy | src/callbacks/aggregate.py:400-410 | one row per distinct key; plays are the number of that key's rows, songs their distinct titles, never more than plays; every row's key has a row; plays descending and summing to the row count |
| Tables.SortedTally | src/callbacks/aggregate.py:409-410 | sorting a tally by descending plays keeps every entry's counts, the distinct artists, the coverage of every row and the total |
| Tables.Credits | src/callbacks/aggregate.py:156-159 | a row's credits are the splitter's names for its artist, empty names dropped: every non-empty name is credited exactly as often as the splitter returns it, and no credit is empty |
| Seqs.FilterCount | src/callbacks/aggregate.py:158 | filtering keeps every copy of an accepted element and no copy of a rejected one |
| Tables.Explode | src/callbacks/aggregate.py:156-159 | every credit comes from some row's split artist |
| Tables.ExplodeComplete | src/callbacks/aggregate.py:156-159 | every non-empty split name of every row is credited |
| Tables.ExplodeConcat | src/callbacks/aggregate.py:157 | exploding works row by row |
| Tables.TopArtist | src/callbacks/aggregate.py:185 | none exactly when there are no credits; otherwise an artist with a maximal number of credits |
| Tables.PlayedArtists | src/callbacks/aggregate.py:415 | exactly the credited artists |
| Tables.UnplayedArtists | src/callbacks/aggregate.py:414-417 | sorted, duplicate-free, and exactly the library artists that were not played |
| Tables.UnplayedArtistsOfSet | src/callbacks/aggregate.py:414-416 | only the set of library artists matters, not its order or repeats |
| Grouping.GroupBy | src/callbacks/aggregate.py:352 | one non-empty group per distinct key holding exactly that key's rows, sizes summing to the row count |
| Grouping.CountDistinctIsCard | src/callbacks/aggregate.py:165 | `nunique` is the size of the set of keys |
| Grouping.LargestGroup | src/callbacks/aggregate.py:185 | a largest group is at least as large as any row's group |
| Sorting.SortSorted | src/callbacks/aggregate.py:395 | sorting by a total preorder yields an ordered sequence |
| Sorting.SortMultiset | src/callbacks/aggregate.py:395 | sorting is a permutation |
| Sorting.SortStable | src/callbacks/shared.py:9-12 | the values of each tie class come out of the sort in the order they went in, as Python's `sorted` guarantees |
| Sorting.SortedUnique | src/callbacks/aggregate.py:416 | under an antisymmetric order, two sorted arrangements of one multiset are equal, so `sorted` output does not depend on input order |
| Sorting.SortStrings | src/callbacks/aggregate.py:416 | `sorted` on strings orders and permutes |
| Sorting.StrLeTotalOrder | src/callbacks/aggregate.py:416 | Python's string comparison is a total order |
| Text.Pad2ParsesBack | src/database/database.py:139 | `f"{n:02d}"` reads back as n, also for negative n |
| Text.SplitJoin | src/callbacks/crates.py:22-49 | splitting a join of separator-free parts gives the parts back |
| Text.JoinSplit | src/callbacks/crates.py:22 | joining the pieces of a split restores the text |
| Text.StripIdempotent | src/callbacks/crates.py:22 | stripping twice equals stripping once |
| Text.Strip | src/callbacks/crates.py:22 | `str.strip()`: no whitespace left at either end, never longer, empty exactly when the text is all whitespace |
| Text.StripTrimmed | src/callbacks/crates.py:22 | a text without whitespace at either end is its own strip |
| Text.SplitPiecesLack | src/callbacks/crates.py:22 | no piece of a split at one character contains that character |
| Crates.CrateSegments | src/callbacks/crates.py:22 | every segment is non-empty, has no surrounding whitespace and no `-` |
| Crates.StripPieces | src/callbacks/crates.py:22 | every kept piece is non-empty and has no whitespace at either end |
| Crates.StripPiecesIsComprehension | src/callbacks/crates.py:22 | the kept pieces are the comprehension's: every piece stripped, then the empty ones dropped |
| Crates.StripPiecesClean | src/callbacks/crates.py:22 | pieces that are already non-empty, trimmed and free of `-` are kept unchanged |
| Crates.SegmentsOfJoin | src/callbacks/crates.py:22 | clean segments joined with `-` give back exactly those segments |
| Crates.SegmentsStable | src/callbacks/crates.py:22 | re-reading a crate's segments from their join changes nothing |
| Crates.MaxLevels | src/callbacks/crates.py:20-23 | at least every crate's segment count, equal to one of them, 0 for no crates |
| Seqs.MaxOf | src/callbacks/crates.py:21-23 | the running `max` from 0: at least every element, one of them when there is any, 0 for none |
| Crates.LevelRows | src/callbacks/crates.py:24-28 | one row per crate, each `max_levels` wide, whose present values are that crate's segments |
| Crates.LevelRow | src/callbacks/crates.py:24-28 | a row has `max_levels` columns: the segments in order, then `None`; its present values are exactly the segments |
| Crates.CrateStructureChart | src/callbacks/crates.py:13-29 | no update off the crates tab; `{}` for no crates; otherwise one row per crate, each `max_levels` wide, with its segments as present levels |
| Crates.DeepestCrateFillsLevels | src/callbacks/crates.py:20-30 | some crate fills the last level column |
| Crates.CratePath | src/callbacks/crates.py:48-49 | the path is empty exactly when the name has no segments |
| Crates.CratePathOfJoin | src/callbacks/crates.py:48-49 | a crate named by clean `-`-joined segments shows them joined by " / " |
| Crates.CrateStructureTable | src/callbacks/crates.py:40-52 | no update off the crates tab; `([], [])` for no crates; otherwise one path per crate in order under one "Crate Path" column |
| Crates.ChartMatchesTable | src/callbacks/crates.py:22-50 | a crate's chart levels joined by " / " are its table path |
| Crates.SongsWithoutCrate | src/callbacks/crates.py:58-69 | nothing off the crates tab; otherwise every song once, formatted, ordered by artist |
| Crates.SongsWithoutCrateRows | src/callbacks/crates.py:67-68 | each table row is a queried song, with "N/A" exactly for a missing duration and otherwise its whole seconds |
| Library.CoerceRating | src/callbacks/library.py:25 | integers stay, missing stays missing, a text coerces exactly when it is a non-empty digit string |
| Library.CoerceNumberText | src/callbacks/library.py:25 | the text of a number coerces to that number |
| Library.CoerceNonNumeric | src/callbacks/library.py:25 | a text with a non-digit coerces to missing |
| Library.RatedRows | src/callbacks/library.py:26-27 | exactly the rows with a present rating in 1..5 |
| Library.CountsFrom | src/callbacks/library.py:28 | one bar per occurring value, ascending, each count its number of occurrences, counts summing over the range |
| Library.CountRangeAll | src/callbacks/library.py:28 | when all values are in range, the per-value counts add up to the number of values |
| Library.RatingHistogram | src/callbacks/library.py:26-29 | bars only for ratings 1..5 that occur, ascending, each with its count, summing to the number of counted rows |
| Library.UpdateLibraryTab | src/callbacks/library.py:15-35 | no update off the library tab; otherwise the total text, every row kept with its id, artist, title and album and its rating coerced, `{}` exactly for an empty library, else the histogram |
| Library.TotalTextReadsBack | src/callbacks/library.py:20-21 | the number in the total text reads back as the number of library rows |
| Library.UnratedSongIgnored | src/callbacks/library.py:25-27 | a song with a missing, non-numeric or out-of-range rating does not change the histogram |
| Callbacks.IndividualPlaylist | src/callbacks/callbacks.py:96-105 | nothing for no selection or id 0; otherwise the playlist's tracks in order, fields kept, "N/A" exactly for a missing duration |
| Callbacks.IndividualPlaylistDurations | src/callbacks/callbacks.py:101-102 | a shown duration reads back as the track's whole seconds |
| Callbacks.PlayedRows | src/callbacks/callbacks.py:153-172 | the row count is the sum of the track counts of the sets that pass the date filter |
| Callbacks.ArtistPlayedTable | src/callbacks/callbacks.py:150-184 | nothing for no selection; otherwise one row per raw artist, plays descending, distinct titles at most plays, plays summing to the collected rows |
| Callbacks.ArtistPlayedRawArtists | src/callbacks/callbacks.py:178-181 | the table's artists are exactly the raw artist texts of the collected rows: no splitting |
| Callbacks.TallyArtists | src/callbacks/callbacks.py:178-181 | in a tally keyed by the raw artist, an artist has a row exactly when some collected row carries that artist text |
| Callbacks.ArtistPlayedNoSetInWindow | src/callbacks/callbacks.py:153-168 | when no selected set is dated inside the window, the table is empty |

## Left out

- SQLite access. The playlist, track, crate, songs-without-crate and
  library queries are inputs or the parameter `tracksFor`.
- All figure construction: histograms, box plot, repetition plot, bar
  chart, sunburst, line plot. The chart model keeps only the data frame
  behind the sunburst and the counts behind the rating histogram.
- Floating point: the Avg BPM and Avg Duration cards, fastest and slowest
  song, the ratio column (src/callbacks/aggregate.py:407), heatmap colours
  and bar styles. `Aggregate.Dashboard` therefore holds only the seven
  counting cards and the three tables.
- `clean_and_split_artists`, `get_shared_data`, `repetition_stats` and
  `all_library_artists` are not part of this model. The splitter is the
  parameter `split`, the shared data and library artists are inputs, and
  the repetition statistics feed only a figure.
- `default_end` reads the clock (`datetime.now()`), so it is left out.
- The triple-quoted dead block after `_empty_aggregate` and the box-plot
  `set_style` lambda are left out.
- The date-picker texts are modelled as already-parsed optional dates;
  `datetime.fromisoformat` is not modelled.
- Tie order of pandas `sort_values`, `idxmax` and `value_counts`
  is unspecified. The contracts state order and maximality, not which tied
  row wins. The model's sort is a stable insertion sort.
- Missing artist or title values (NaN group keys, which pandas drops) are
  not modelled: artists and titles are strings.
- `Text.Lower`, `Text.IsDigit`: ASCII only. Python's Unicode case mapping
  and digit classes are wider. `Text.Strip` uses the code points Python's
  `str.isspace()` accepts.
- `Library.CoerceRating`: only plain digit strings count as numeric texts.
  Signs, decimals, exponents and surrounding whitespace, which
  `pd.to_numeric` also accepts, are not modelled. Coerced ratings are
  integers, whereas pandas turns the column into floats once a value is
  missing.
- `Dates.IsoFormat`: years are padded to four digits; `strftime`'s output
  for years below 1000 is platform-dependent and not modelled.
- `Database.FormatTrack`, `Callbacks.IndividualPlaylist`,
  `Crates.SongsWithoutCrate`: a shown row keeps artist, title, album,
  duration and rating only. The source also passes through `bpm`,
  `file_path` and `position` in the individual-playlist table
  (src/callbacks/callbacks.py:99-105), and `bpm` after `pd.to_numeric` in
  the songs-without-crate table (src/callbacks/crates.py:64-69). These
  columns are copied unchanged, apart from that coercion. They feed no value
  the model computes, and the float coercion is not modelled.
- `Database.FormatTrack`: a NaN duration, which also makes
  `format_duration` raise, is not modelled, because durations are
  `Option<real>`.
- `Crates.CrateStructureChart`: the sunburst figure and its failure when no
  crate has a segment are not modelled.
- `Callbacks.ArtistPlayedTable`: the rank field of the shared row type is
  not part of this table. The bpm and duration coercions feed nothing in
  the table and are left out.
- `Aggregate.UpdateAggregateDashboard`: its own contract states only when
  the empty dashboard is returned. The non-empty facts are in
  `Aggregate.AggregateDashboardConsistent`.
