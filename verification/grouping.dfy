/** pandas' `groupby(...).agg(...)`, `nunique` and `drop_duplicates` over a
    sequence of rows: one group per distinct key holding the rows that carry
    that key, in their original order. */
module Grouping {
  import opened Seqs

  /** The rows of `s` whose key is `k`, in order. */
  function Select<T, K(==)>(s: seq<T>, key: T -> K, k: K): (r: seq<T>)
    ensures |r| <= |s|
    ensures forall i :: 0 <= i < |r| ==> key(r[i]) == k
  {
    if |s| == 0 then [] else (if key(s[0]) == k then [s[0]] else []) + Select(s[1..], key, k)
  }

  lemma {:induction false} SelectAppend<T, K>(s: seq<T>, x: T, key: T -> K, k: K)
    ensures Select(s + [x], key, k) == Select(s, key, k) + (if key(x) == k then [x] else [])
  {
    if |s| > 0 {
      assert (s + [x])[1..] == s[1..] + [x];
      SelectAppend(s[1..], x, key, k);
    } else {
      assert s + [x] == [x];
    }
  }

  /** A key that no row carries selects nothing; one that some row carries
      selects that row. */
  lemma {:induction false} SelectMember<T, K>(s: seq<T>, key: T -> K, i: nat)
    requires i < |s|
    ensures s[i] in Select(s, key, key(s[i]))
  {
    if i > 0 {
      SelectMember(s[1..], key, i - 1);
    }
  }

  lemma {:induction false} SelectAbsent<T, K>(s: seq<T>, key: T -> K, k: K)
    requires forall i :: 0 <= i < |s| ==> key(s[i]) != k
    ensures Select(s, key, k) == []
  {
    if |s| > 0 {
      SelectAbsent(s[1..], key, k);
    }
  }

  /** Selected rows are rows of `s`. */
  lemma {:induction false} SelectIn<T, K>(s: seq<T>, key: T -> K, k: K)
    ensures forall i :: 0 <= i < |Select(s, key, k)| ==> Select(s, key, k)[i] in s
  {
    if |s| > 0 {
      SelectIn(s[1..], key, k);
      var r := Select(s, key, k);
      var rest := Select(s[1..], key, k);
      forall i | 0 <= i < |r|
        ensures r[i] in s
      {
        if key(s[0]) == k && i == 0 {
        } else {
          var j := if key(s[0]) == k then i - 1 else i;
          assert r[i] == rest[j];
          assert rest[j] in s[1..];
        }
      }
    }
  }

  /** A key that selects something is the key of some row. */
  lemma SelectWitness<T, K>(s: seq<T>, key: T -> K, k: K)
    requires |Select(s, key, k)| > 0
    ensures exists i :: 0 <= i < |s| && key(s[i]) == k
  {
    var sel := Select(s, key, k);
    SelectIn(s, key, k);
    assert sel[0] in s && key(sel[0]) == k;
  }

  /** The distinct keys of `s` in order of first appearance (pandas `unique`). */
  function Keys<T, K(==)>(s: seq<T>, key: T -> K): (ks: seq<K>)
    ensures Distinct(ks)
    ensures |ks| <= |s|
    ensures forall i :: 0 <= i < |s| ==> key(s[i]) in ks
    ensures forall j :: 0 <= j < |ks| ==> exists i :: 0 <= i < |s| && key(s[i]) == ks[j]
    decreases |s|
  {
    if |s| == 0 then []
    else
      var init := s[..|s| - 1];
      var ks := Keys(init, key);
      assert forall i :: 0 <= i < |init| ==> s[i] == init[i];
      if key(s[|s| - 1]) in ks then ks else ks + [key(s[|s| - 1])]
  }

  /** `nunique`: the number of distinct keys. */
  function CountDistinct<T, K(==)>(s: seq<T>, key: T -> K): (n: nat)
    ensures n <= |s|
    ensures |s| > 0 ==> n > 0
  {
    assert |s| > 0 ==> key(s[0]) in Keys(s, key);
    |Keys(s, key)|
  }

  /** The set of keys the rows carry. */
  function KeySet<T, K(!new)>(s: seq<T>, key: T -> K): (r: set<K>)
    ensures forall k :: k in r <==> exists i :: 0 <= i < |s| && key(s[i]) == k
  {
    set i | 0 <= i < |s| :: key(s[i])
  }

  /** `nunique` is the size of the set of keys. */
  lemma CountDistinctIsCard<T, K(!new)>(s: seq<T>, key: T -> K)
    ensures CountDistinct(s, key) == |KeySet(s, key)|
  {
    var ks := Keys(s, key);
    assert ToSet(ks) == KeySet(s, key) by {
      forall k | k in KeySet(s, key)
        ensures k in ToSet(ks)
      {
        var i :| 0 <= i < |s| && key(s[i]) == k;
        assert key(s[i]) in ks;
      }
      forall k | k in ToSet(ks)
        ensures k in KeySet(s, key)
      {
        var j :| 0 <= j < |ks| && ks[j] == k;
        var i :| 0 <= i < |s| && key(s[i]) == ks[j];
      }
    }
    DistinctCard(ks);
  }

  /** One group of a `groupby`: its key and its rows in original order. */
  datatype Group<K, T> = Group(key: K, rows: seq<T>)

  function GroupKey<K, T>(g: Group<K, T>): K
  {
    g.key
  }

  function GroupSize<K, T>(g: Group<K, T>): int
  {
    |g.rows|
  }

  function GroupsOf<T, K(==)>(s: seq<T>, key: T -> K, ks: seq<K>): (gs: seq<Group<K, T>>)
    ensures |gs| == |ks|
    ensures forall i :: 0 <= i < |gs| ==> gs[i] == Group(ks[i], Select(s, key, ks[i]))
  {
    if |ks| == 0 then [] else [Group(ks[0], Select(s, key, ks[0]))] + GroupsOf(s, key, ks[1..])
  }

  /** Each group holds exactly the rows carrying its key, and at least one. */
  predicate SelectsRows<K(==), T(==)>(gs: seq<Group<K, T>>, s: seq<T>, key: T -> K)
  {
    forall i :: 0 <= i < |gs| ==> gs[i].rows == Select(s, key, gs[i].key) && |gs[i].rows| > 0
  }

  /** Every row's key has a group. */
  predicate CoversRows<K(==), T>(gs: seq<Group<K, T>>, s: seq<T>, key: T -> K)
  {
    forall i :: 0 <= i < |s| ==> exists j :: 0 <= j < |gs| && gs[j].key == key(s[i])
  }

  /** `groupby(key)`: one non-empty group per distinct key, each holding
      exactly the rows with that key, the group sizes adding up to the
      number of rows. */
  function GroupBy<T(==), K(==)>(s: seq<T>, key: T -> K): (gs: seq<Group<K, T>>)
    ensures DistinctBy(gs, GroupKey)
    ensures SelectsRows(gs, s, key)
    ensures CoversRows(gs, s, key)
    ensures SumOf(gs, GroupSize) == |s|
    ensures |gs| == CountDistinct(s, key)
  {
    var ks := Keys(s, key);
    var gs := GroupsOf(s, key, ks);
    forall j | 0 <= j < |gs|
      ensures |gs[j].rows| > 0
    {
      var i :| 0 <= i < |s| && key(s[i]) == ks[j];
      SelectMember(s, key, i);
    }
    forall i | 0 <= i < |s|
      ensures exists j :: 0 <= j < |gs| && gs[j].key == key(s[i])
    {
      var j :| 0 <= j < |ks| && ks[j] == key(s[i]);
      assert gs[j].key == key(s[i]);
    }
    forall i, j | 0 <= i < j < |gs|
      ensures GroupKey(gs[i]) != GroupKey(gs[j])
    {
      assert GroupKey(gs[i]) == ks[i] && GroupKey(gs[j]) == ks[j];
    }
    GroupSizesSum(s, key, ks);
    gs
  }

  /** No groups means no rows. */
  lemma NoGroupsNoRows<K, T>(gs: seq<Group<K, T>>, s: seq<T>, key: T -> K)
    requires CoversRows(gs, s, key)
    ensures |gs| == 0 ==> |s| == 0
  {
    if |s| > 0 {
      var x := key(s[0]);
      assert exists j :: 0 <= j < |gs| && gs[j].key == x;
    }
  }

  /** A largest group is at least as large as the group of any row. */
  lemma LargestGroup<K, T>(gs: seq<Group<K, T>>, s: seq<T>, key: T -> K, k: nat)
    requires SelectsRows(gs, s, key) && CoversRows(gs, s, key)
    requires k < |gs| && forall j :: 0 <= j < |gs| ==> GroupSize(gs[j]) <= GroupSize(gs[k])
    ensures forall i :: 0 <= i < |s| ==> |Select(s, key, key(s[i]))| <= |Select(s, key, gs[k].key)|
  {
    forall i | 0 <= i < |s|
      ensures |Select(s, key, key(s[i]))| <= |Select(s, key, gs[k].key)|
    {
      var j :| 0 <= j < |gs| && gs[j].key == key(s[i]);
      assert GroupSize(gs[j]) <= GroupSize(gs[k]);
    }
  }

  /** Every row falls in exactly one group, so the sizes of the groups over
      a duplicate-free key list covering all rows add up to the row count. */
  lemma {:induction false} GroupSizesSum<T, K>(s: seq<T>, key: T -> K, ks: seq<K>)
    requires Distinct(ks)
    requires forall i :: 0 <= i < |s| ==> key(s[i]) in ks
    ensures SumOf(GroupsOf(s, key, ks), GroupSize) == |s|
    decreases |s|
  {
    if |s| == 0 {
      forall k { SelectAbsent(s, key, k); }
      AllEmpty(s, key, ks);
    } else {
      var init := s[..|s| - 1];
      var x := s[|s| - 1];
      assert s == init + [x];
      assert forall i :: 0 <= i < |init| ==> init[i] == s[i];
      GroupSizesSum(init, key, ks);
      GroupSizesAppend(init, x, key, ks);
      OccurrencesOfMember(ks, key(x));
    }
  }

  lemma {:induction false} AllEmpty<T, K>(s: seq<T>, key: T -> K, ks: seq<K>)
    requires |s| == 0
    ensures SumOf(GroupsOf(s, key, ks), GroupSize) == 0
  {
    if |ks| > 0 {
      AllEmpty(s, key, ks[1..]);
    }
  }

  /** How often `k` occurs in `ks`. */
  function Occurrences<K(==)>(ks: seq<K>, k: K): nat
  {
    if |ks| == 0 then 0 else (if ks[0] == k then 1 else 0) + Occurrences(ks[1..], k)
  }

  lemma {:induction false} OccurrencesOfMember<K>(ks: seq<K>, k: K)
    requires Distinct(ks) && k in ks
    ensures Occurrences(ks, k) == 1
  {
    if ks[0] == k {
      OccurrencesOfAbsent(ks[1..], k);
    } else {
      OccurrencesOfMember(ks[1..], k);
    }
  }

  lemma {:induction false} OccurrencesOfAbsent<K>(ks: seq<K>, k: K)
    requires k !in ks
    ensures Occurrences(ks, k) == 0
  {
    if |ks| > 0 {
      OccurrencesOfAbsent(ks[1..], k);
    }
  }

  lemma {:induction false} GroupSizesAppend<T, K>(s: seq<T>, x: T, key: T -> K, ks: seq<K>)
    ensures SumOf(GroupsOf(s + [x], key, ks), GroupSize)
         == SumOf(GroupsOf(s, key, ks), GroupSize) + Occurrences(ks, key(x))
  {
    if |ks| > 0 {
      SelectAppend(s, x, key, ks[0]);
      GroupSizesAppend(s, x, key, ks[1..]);
    }
  }
}
