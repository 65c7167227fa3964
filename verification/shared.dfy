/** The values every callback shares, computed once from the playlists:
    the party sets (playlists whose name starts with a date), the id → date
    lookup, the dropdown options ordered by date and the default start of
    the date picker. */
module Shared {
  import opened Seqs
  import opened Sorting
  import opened Dates
  import opened Database

  predicate HasDate(p: Playlist)
  {
    p.date.Some?
  }

  function PlaylistId(p: Playlist): int
  {
    p.id
  }

  /** `party_sets`: the playlists that carry a date, in their original order. */
  function PartySets(ps: seq<Playlist>): (r: seq<Playlist>)
    ensures |r| <= |ps|
    ensures forall i :: 0 <= i < |r| ==> r[i].date.Some? && r[i] in ps
    ensures forall i :: 0 <= i < |ps| && ps[i].date.Some? ==> ps[i] in r
  {
    Filter(ps, HasDate)
  }

  /** Party sets of two query results concatenated are the party sets of
      each, in order. */
  lemma PartySetsConcat(a: seq<Playlist>, b: seq<Playlist>)
    ensures PartySets(a + b) == PartySets(a) + PartySets(b)
  {
    FilterConcat(a, b, HasDate);
  }

  /** Taking the party sets twice changes nothing. */
  lemma {:induction false} PartySetsIdempotent(ps: seq<Playlist>)
    ensures PartySets(PartySets(ps)) == PartySets(ps)
  {
    if |ps| > 0 {
      PartySetsIdempotent(ps[1..]);
      PartySetsConcat([ps[0]], ps[1..]);
      assert [ps[0]] + ps[1..] == ps;
      FilterSingleton(ps[0], HasDate);
      PartySetsConcat(PartySets([ps[0]]), PartySets(ps[1..]));
      FilterSingleton(ps[0], HasDate);
    }
  }

  // ---------------------------------------------------------------------
  // playlist_id_to_date

  /** `{pl["id"]: pl["date"] for pl in sets}`: a later playlist with the
      same id overwrites an earlier one, so each id maps to the date of its
      last playlist. */
  function IdToDate(sets: seq<Playlist>): (m: map<int, Option<Date>>)
    ensures forall id :: id in m <==> exists i :: 0 <= i < |sets| && sets[i].id == id
    ensures |sets| > 0 ==> m[sets[|sets| - 1].id] == sets[|sets| - 1].date
    decreases |sets|
  {
    if |sets| == 0 then map[]
    else
      var init := sets[..|sets| - 1];
      var last := sets[|sets| - 1];
      assert forall i :: 0 <= i < |init| ==> init[i] == sets[i];
      IdToDate(init)[last.id := last.date]
  }

  /** No playlist after the `i`-th carries its id. */
  predicate LastWithId(sets: seq<Playlist>, i: nat)
    requires i < |sets|
  {
    forall j :: i < j < |sets| ==> sets[j].id != sets[i].id
  }

  /** Whatever the ids, each id takes the date of its last playlist. */
  lemma {:induction false} IdToDateLastWins(sets: seq<Playlist>, i: nat)
    requires i < |sets| && LastWithId(sets, i)
    ensures sets[i].id in IdToDate(sets) && IdToDate(sets)[sets[i].id] == sets[i].date
    decreases |sets|
  {
    if i < |sets| - 1 {
      var init := sets[..|sets| - 1];
      assert init[i] == sets[i];
      assert LastWithId(init, i) by {
        forall j | i < j < |init|
          ensures init[j].id != init[i].id
        {
          assert init[j] == sets[j];
        }
      }
      IdToDateLastWins(init, i);
      assert sets[|sets| - 1].id != sets[i].id;
    }
  }

  /** `dict.get(id)`: the date of `id`, or `None` for an unknown id. */
  function DateOf(m: map<int, Option<Date>>, id: int): Option<Date>
  {
    if id in m then m[id] else None
  }

  /** With ids unique, as they are in the `Playlists` table, every playlist's
      id maps to its own date. */
  lemma {:induction false} IdToDateOwn(sets: seq<Playlist>, i: nat)
    requires DistinctBy(sets, PlaylistId)
    requires i < |sets|
    ensures DateOf(IdToDate(sets), sets[i].id) == sets[i].date
    decreases |sets|
  {
    var init := sets[..|sets| - 1];
    if i < |sets| - 1 {
      assert PlaylistId(sets[i]) != PlaylistId(sets[|sets| - 1]);
      assert init[i] == sets[i];
      assert DistinctBy(init, PlaylistId) by {
        forall a, b | 0 <= a < b < |init|
          ensures PlaylistId(init[a]) != PlaylistId(init[b])
        {
          assert init[a] == sets[a] && init[b] == sets[b];
        }
      }
      IdToDateOwn(init, i);
    }
  }

  /** Every value of the lookup built from party sets is a present date. */
  lemma {:induction false} IdToDateAllDated(sets: seq<Playlist>)
    requires forall i :: 0 <= i < |sets| ==> sets[i].date.Some?
    ensures forall id :: id in IdToDate(sets) ==> IdToDate(sets)[id].Some?
    decreases |sets|
  {
    if |sets| > 0 {
      var init := sets[..|sets| - 1];
      assert forall i :: 0 <= i < |init| ==> init[i] == sets[i];
      IdToDateAllDated(init);
    }
  }

  // ---------------------------------------------------------------------
  // party_set_options

  /** A dropdown option: the playlist name as its label (`caption`), its id as value. */
  datatype SetOption = SetOption(caption: string, value: int)

  function ToOption(p: Playlist): SetOption
  {
    SetOption(p.name, p.id)
  }

  function OptionValue(o: SetOption): int
  {
    o.value
  }

  /** Optional dates ordered chronologically, a missing one first. */
  predicate OptDateLe(a: Option<Date>, b: Option<Date>)
  {
    match (a, b)
    case (None, _) => true
    case (Some(_), None) => false
    case (Some(x), Some(y)) => NotAfter(x, y)
  }

  /** The sort key of `party_set_options`: `playlist_id_to_date[value]`. */
  function ByDate(m: map<int, Option<Date>>): (le: (SetOption, SetOption) -> bool)
  {
    (a: SetOption, b: SetOption) => OptDateLe(DateOf(m, a.value), DateOf(m, b.value))
  }

  lemma ByDateTotalPreorder(m: map<int, Option<Date>>)
    ensures TotalPreorder(ByDate(m))
  {
    NotAfterTotalOrder();
  }

  /** `party_set_options`: one option per party set, stably sorted by the
      date its id maps to; the options of one date keep the order of their
      sets. */
  function PartySetOptions(sets: seq<Playlist>, m: map<int, Option<Date>>): (r: seq<SetOption>)
    ensures |r| == |sets|
    ensures multiset(r) == multiset(Map(sets, ToOption))
    ensures SortedBy(r, ByDate(m))
    ensures forall o :: Filter(r, TiedWith(ByDate(m), o)) == Filter(Map(sets, ToOption), TiedWith(ByDate(m), o))
  {
    ByDateTotalPreorder(m);
    SortStableAll(Map(sets, ToOption), ByDate(m));
    SortMultiset(Map(sets, ToOption), ByDate(m));
    SortSorted(Map(sets, ToOption), ByDate(m));
    Sort(Map(sets, ToOption), ByDate(m))
  }

  /** The options built from the playlists are exactly the party sets, and
      their dates never decrease along the dropdown. */
  lemma OptionsChronological(ps: seq<Playlist>)
    ensures var sets := PartySets(ps);
      var m := IdToDate(sets);
      var r := PartySetOptions(sets, m);
      && (forall i :: 0 <= i < |r| ==> DateOf(m, r[i].value).Some?)
      && (forall i, j :: 0 <= i < j < |r| ==>
            NotAfter(DateOf(m, r[i].value).value, DateOf(m, r[j].value).value))
  {
    var sets := PartySets(ps);
    var m := IdToDate(sets);
    var r := PartySetOptions(sets, m);
    IdToDateAllDated(sets);
    forall i | 0 <= i < |r|
      ensures DateOf(m, r[i].value).Some?
    {
      OptionFromSet(sets, r, i);
    }
  }

  /** Each option comes from some party set. */
  lemma OptionFromSet(sets: seq<Playlist>, r: seq<SetOption>, i: nat)
    requires multiset(r) == multiset(Map(sets, ToOption))
    requires i < |r|
    ensures exists k :: 0 <= k < |sets| && r[i] == ToOption(sets[k])
  {
    assert r[i] in multiset(Map(sets, ToOption));
    var k :| 0 <= k < |sets| && Map(sets, ToOption)[k] == r[i];
  }

  // ---------------------------------------------------------------------
  // default_start

  /** `min` of a non-empty sequence of dates. */
  function MinDate(ds: seq<Date>): (d: Date)
    requires |ds| > 0
    ensures d in ds
    ensures forall i :: 0 <= i < |ds| ==> NotAfter(d, ds[i])
  {
    if |ds| == 1 then ds[0]
    else
      var rest := MinDate(ds[1..]);
      assert forall i :: 1 <= i < |ds| ==> ds[i] == ds[1..][i - 1];
      if NotAfter(ds[0], rest) then ds[0] else rest
  }

  /** The playlist at `w` has a date and no dated playlist comes before it. */
  predicate EarliestAt(ps: seq<Playlist>, w: int)
  {
    && 0 <= w < |ps| && ps[w].date.Some?
    && forall j :: 0 <= j < |ps| && ps[j].date.Some? ==> NotAfter(ps[w].date.value, ps[j].date.value)
  }

  /** `default_start`: the ISO text of the earliest party-set date, `None`
      when no playlist carries a date. */
  function DefaultStart(ps: seq<Playlist>): (r: Option<string>)
    ensures r.None? <==> forall i :: 0 <= i < |ps| ==> ps[i].date.None?
    ensures r.Some? ==> exists w :: EarliestAt(ps, w) && r.value == IsoFormat(ps[w].date.value)
  {
    var sets := PartySets(ps);
    if |sets| == 0 then None
    else
      var dates := Somes(Map(sets, DateField));
      assert Map(sets, DateField)[0].Some?;
      assert sets[0].date.value in dates;
      var d := MinDate(dates);
      assert d in dates;
      assert Some(d) in Map(sets, DateField);
      var k :| 0 <= k < |sets| && sets[k].date == Some(d);
      assert sets[k] in ps;
      var w :| 0 <= w < |ps| && ps[w] == sets[k];
      forall j | 0 <= j < |ps| && ps[j].date.Some?
        ensures NotAfter(d, ps[j].date.value)
      {
        assert ps[j] in sets;
        var q :| 0 <= q < |sets| && sets[q] == ps[j];
        assert Map(sets, DateField)[q] == ps[j].date;
        assert ps[j].date.value in dates;
      }
      assert EarliestAt(ps, w);
      Some(IsoFormat(d))
  }

  function DateField(p: Playlist): Option<Date>
  {
    p.date
  }

  /** Under unique ids each option's date in the lookup is the date of the
      party set it was built from. */
  lemma OptionOwnDate(sets: seq<Playlist>, r: seq<SetOption>, j: nat)
    requires DistinctBy(sets, PlaylistId)
    requires multiset(r) == multiset(Map(sets, ToOption))
    requires j < |r|
    ensures exists k :: (0 <= k < |sets| && r[j] == ToOption(sets[k])
      && DateOf(IdToDate(sets), r[j].value) == sets[k].date)
  {
    OptionFromSet(sets, r, j);
    var k :| 0 <= k < |sets| && r[j] == ToOption(sets[k]);
    IdToDateOwn(sets, k);
  }

  /** Every party set has its option in the dropdown. */
  lemma SetHasOption(sets: seq<Playlist>, r: seq<SetOption>, k: nat)
    requires multiset(r) == multiset(Map(sets, ToOption))
    requires k < |sets|
    ensures exists j :: 0 <= j < |r| && r[j] == ToOption(sets[k])
  {
    assert Map(sets, ToOption)[k] == ToOption(sets[k]);
    assert ToOption(sets[k]) in multiset(r);
  }

  /** The first option carries a date that no party set precedes. */
  lemma FirstOptionEarliest(sets: seq<Playlist>, r: seq<SetOption>)
    requires DistinctBy(sets, PlaylistId)
    requires forall k :: 0 <= k < |sets| ==> sets[k].date.Some?
    requires multiset(r) == multiset(Map(sets, ToOption))
    requires SortedBy(r, ByDate(IdToDate(sets)))
    requires |r| > 0
    ensures DateOf(IdToDate(sets), r[0].value).Some?
    ensures forall k :: 0 <= k < |sets| ==>
      NotAfter(DateOf(IdToDate(sets), r[0].value).value, sets[k].date.value)
  {
    var m := IdToDate(sets);
    OptionOwnDate(sets, r, 0);
    forall k | 0 <= k < |sets|
      ensures NotAfter(DateOf(m, r[0].value).value, sets[k].date.value)
    {
      SetHasOption(sets, r, k);
      var j :| 0 <= j < |r| && r[j] == ToOption(sets[k]);
      IdToDateOwn(sets, k);
      assert DateOf(m, r[j].value) == sets[k].date;
      if j > 0 {
        assert ByDate(m)(r[0], r[j]);
      } else {
        NotAfterTotalOrder();
      }
    }
  }

  /** With unique playlist ids the default start is the date of the first
      dropdown option. */
  lemma DefaultStartIsFirstOption(ps: seq<Playlist>)
    requires DistinctBy(ps, PlaylistId)
    requires exists i :: 0 <= i < |ps| && ps[i].date.Some?
    ensures var sets := PartySets(ps);
      var m := IdToDate(sets);
      var r := PartySetOptions(sets, m);
      && |r| > 0 && DateOf(m, r[0].value).Some?
      && DefaultStart(ps) == Some(IsoFormat(DateOf(m, r[0].value).value))
  {
    var sets := PartySets(ps);
    var m := IdToDate(sets);
    var r := PartySetOptions(sets, m);
    var i :| 0 <= i < |ps| && ps[i].date.Some?;
    assert ps[i] in sets;
    PartySetsDistinct(ps);
    FirstOptionEarliest(sets, r);
    var d0 := DateOf(m, r[0].value).value;
    OptionOwnDate(sets, r, 0);
    var k0 :| 0 <= k0 < |sets| && r[0] == ToOption(sets[k0]) && DateOf(m, r[0].value) == sets[k0].date;
    assert sets[k0] in ps;
    var q :| 0 <= q < |ps| && ps[q] == sets[k0];
    EarliestOfAll(ps, d0);
    DefaultStartIsEarliest(ps, d0, q);
  }

  /** A date that some playlist carries and no dated playlist precedes is
      the default start. */
  lemma DefaultStartIsEarliest(ps: seq<Playlist>, d0: Date, q: nat)
    requires q < |ps| && ps[q].date == Some(d0)
    requires forall j :: 0 <= j < |ps| && ps[j].date.Some? ==> NotAfter(d0, ps[j].date.value)
    ensures DefaultStart(ps) == Some(IsoFormat(d0))
  {
    var r := DefaultStart(ps);
    assert r.Some?;
    var w :| EarliestAt(ps, w) && r.value == IsoFormat(ps[w].date.value);
    EarliestIsUnique(ps, w, d0, q);
  }

  /** A date no party set precedes is not after any dated playlist. */
  lemma EarliestOfAll(ps: seq<Playlist>, d0: Date)
    requires forall k :: 0 <= k < |PartySets(ps)| ==> NotAfter(d0, PartySets(ps)[k].date.value)
    ensures forall j :: 0 <= j < |ps| && ps[j].date.Some? ==> NotAfter(d0, ps[j].date.value)
  {
    var sets := PartySets(ps);
    forall j | 0 <= j < |ps| && ps[j].date.Some?
      ensures NotAfter(d0, ps[j].date.value)
    {
      assert ps[j] in sets;
      var k :| 0 <= k < |sets| && sets[k] == ps[j];
    }
  }

  /** Two earliest dates are the same date. */
  lemma EarliestIsUnique(ps: seq<Playlist>, w: int, d0: Date, q: nat)
    requires EarliestAt(ps, w)
    requires q < |ps| && ps[q].date == Some(d0)
    requires forall j :: 0 <= j < |ps| && ps[j].date.Some? ==> NotAfter(d0, ps[j].date.value)
    ensures ps[w].date == Some(d0)
  {
    NotAfterBothWays(ps[w].date.value, d0);
  }

  lemma NotAfterBothWays(a: Date, b: Date)
    requires NotAfter(a, b) && NotAfter(b, a)
    ensures a == b
  {
    NotAfterTotalOrder();
  }

  /** The party sets of playlists with unique ids have unique ids. */
  lemma PartySetsDistinct(ps: seq<Playlist>)
    requires DistinctBy(ps, PlaylistId)
    ensures DistinctBy(PartySets(ps), PlaylistId)
  {
    FilterDistinct(ps, HasDate, PlaylistId);
  }
}
