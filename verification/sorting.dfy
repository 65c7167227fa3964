/** Sorting as the callbacks use it: Python's stable `sorted` (and pandas'
    `sort_values`, whose tie order is left open) modelled by one stable
    insertion sort over a comparator, and Python's ordering of `str`. */
module Sorting {
  import opened Seqs

  /** `le` is a total preorder: any two values compare, and comparison chains. */
  ghost predicate TotalPreorder<T(!new)>(le: (T, T) -> bool)
  {
    && (forall a, b :: le(a, b) || le(b, a))
    && (forall a, b, c :: le(a, b) && le(b, c) ==> le(a, c))
  }

  /** Values that compare both ways are equal. */
  ghost predicate Antisymmetric<T(!new)>(le: (T, T) -> bool)
  {
    forall a, b :: le(a, b) && le(b, a) ==> a == b
  }

  predicate SortedBy<T>(s: seq<T>, le: (T, T) -> bool)
  {
    forall i, j :: 0 <= i < j < |s| ==> le(s[i], s[j])
  }

  /** Places `x` in front of the first element it does not come after. */
  function Insert<T>(x: T, s: seq<T>, le: (T, T) -> bool): (r: seq<T>)
    ensures |r| == |s| + 1
  {
    if |s| == 0 then [x]
    else if le(x, s[0]) then [x] + s
    else [s[0]] + Insert(x, s[1..], le)
  }

  /** Stable insertion sort: an element is inserted ahead of every later
      element it compares as less than or equal to. */
  function Sort<T>(s: seq<T>, le: (T, T) -> bool): (r: seq<T>)
    ensures |r| == |s|
  {
    if |s| == 0 then [] else Insert(s[0], Sort(s[1..], le), le)
  }

  lemma {:induction false} InsertMultiset<T>(x: T, s: seq<T>, le: (T, T) -> bool)
    ensures multiset(Insert(x, s, le)) == multiset{x} + multiset(s)
  {
    if |s| > 0 && !le(x, s[0]) {
      InsertMultiset(x, s[1..], le);
      assert s == [s[0]] + s[1..];
    }
  }

  /** Sorting permutes its input. */
  lemma {:induction false} SortMultiset<T>(s: seq<T>, le: (T, T) -> bool)
    ensures multiset(Sort(s, le)) == multiset(s)
  {
    if |s| > 0 {
      SortMultiset(s[1..], le);
      InsertMultiset(s[0], Sort(s[1..], le), le);
      assert s == [s[0]] + s[1..];
    }
  }

  lemma SortMembers<T>(s: seq<T>, le: (T, T) -> bool)
    ensures forall x :: x in Sort(s, le) <==> x in s
  {
    SortMultiset(s, le);
    forall x
      ensures x in Sort(s, le) <==> x in s
    {
      assert x in Sort(s, le) <==> x in multiset(Sort(s, le));
      assert x in s <==> x in multiset(s);
    }
  }

  /** A property every element has survives sorting. */
  lemma SortKeepsAll<T>(s: seq<T>, le: (T, T) -> bool, p: T -> bool)
    requires forall i :: 0 <= i < |s| ==> p(s[i])
    ensures forall i :: 0 <= i < |Sort(s, le)| ==> p(Sort(s, le)[i])
  {
    SortMultiset(s, le);
    var r := Sort(s, le);
    forall i | 0 <= i < |r|
      ensures p(r[i])
    {
      var x := r[i];
      assert x in multiset(r);
      assert x in multiset(s);
      var j :| 0 <= j < |s| && s[j] == x;
    }
  }

  lemma {:induction false} InsertSorted<T(!new)>(x: T, s: seq<T>, le: (T, T) -> bool)
    requires TotalPreorder(le)
    requires SortedBy(s, le)
    ensures SortedBy(Insert(x, s, le), le)
    ensures forall y :: y in Insert(x, s, le) <==> y == x || y in s
  {
    InsertMembers(x, s, le);
    if |s| > 0 && !le(x, s[0]) {
      SortedTail(s, le);
      InsertSorted(x, s[1..], le);
      HeadBeforeInsert(x, s, le);
    }
  }

  /** Inserting adds `x` and keeps everything else. */
  lemma InsertMembers<T>(x: T, s: seq<T>, le: (T, T) -> bool)
    ensures forall y :: y in Insert(x, s, le) <==> y == x || y in s
  {
    InsertMultiset(x, s, le);
    forall y
      ensures y in Insert(x, s, le) <==> y == x || y in s
    {
      assert y in Insert(x, s, le) <==> y in multiset(Insert(x, s, le));
    }
  }

  /** When `x` goes past the head, the head still comes first. */
  lemma HeadBeforeInsert<T(!new)>(x: T, s: seq<T>, le: (T, T) -> bool)
    requires TotalPreorder(le) && SortedBy(s, le)
    requires |s| > 0 && !le(x, s[0])
    requires SortedBy(Insert(x, s[1..], le), le)
    ensures SortedBy(Insert(x, s, le), le)
  {
    var t := Insert(x, s[1..], le);
    InsertMembers(x, s[1..], le);
    assert Insert(x, s, le) == [s[0]] + t;
    forall k | 0 < k < |[s[0]] + t|
      ensures le(s[0], ([s[0]] + t)[k])
    {
      var y := t[k - 1];
      assert y in t;
      if y != x {
        assert y in s[1..];
        var m :| 0 <= m < |s| - 1 && s[1..][m] == y;
        assert s[m + 1] == y;
      }
    }
  }

  /** Sorting leaves its output ordered. */
  lemma {:induction false} SortSorted<T(!new)>(s: seq<T>, le: (T, T) -> bool)
    requires TotalPreorder(le)
    ensures SortedBy(Sort(s, le), le)
  {
    if |s| > 0 {
      SortSorted(s[1..], le);
      InsertSorted(s[0], Sort(s[1..], le), le);
    }
  }

  /** The values that compare both ways with `z`: `z`'s tie class. */
  function TiedWith<T>(le: (T, T) -> bool, z: T): T -> bool
  {
    y => le(z, y) && le(y, z)
  }

  /** An inserted value goes behind every earlier value of its tie class. */
  lemma {:induction false} InsertStable<T(!new)>(x: T, s: seq<T>, le: (T, T) -> bool, z: T)
    requires TotalPreorder(le)
    ensures Filter(Insert(x, s, le), TiedWith(le, z))
         == Filter([x], TiedWith(le, z)) + Filter(s, TiedWith(le, z))
  {
    var p := TiedWith(le, z);
    if |s| == 0 {
      assert [x] + [] == [x];
    } else if le(x, s[0]) {
      FilterConcat([x], s, p);
    } else {
      var t := Insert(x, s[1..], le);
      InsertStable(x, s[1..], le, z);
      FilterConcat([s[0]], t, p);
      FilterConcat([s[0]], s[1..], p);
      assert s == [s[0]] + s[1..];
      var h := s[0];
      if p(x) {
        assert le(x, z) && le(z, h) ==> le(x, h);
      }
      OneSideEmpty(Filter([x], p), Filter([s[0]], p), Filter(s[1..], p));
    }
  }

  /** Two pieces of which one is empty may swap places. */
  lemma OneSideEmpty<T>(a: seq<T>, b: seq<T>, c: seq<T>)
    requires |a| == 0 || |b| == 0
    ensures b + (a + c) == a + (b + c)
  {
  }

  /** Sorting is stable: the values of one tie class keep their order. */
  lemma {:induction false} SortStable<T(!new)>(s: seq<T>, le: (T, T) -> bool, z: T)
    requires TotalPreorder(le)
    ensures Filter(Sort(s, le), TiedWith(le, z)) == Filter(s, TiedWith(le, z))
  {
    if |s| > 0 {
      SortStable(s[1..], le, z);
      InsertStable(s[0], Sort(s[1..], le), le, z);
      FilterConcat([s[0]], s[1..], TiedWith(le, z));
      assert s == [s[0]] + s[1..];
    }
  }

  /** Stability for every tie class at once. */
  lemma SortStableAll<T(!new)>(s: seq<T>, le: (T, T) -> bool)
    requires TotalPreorder(le)
    ensures forall z :: Filter(Sort(s, le), TiedWith(le, z)) == Filter(s, TiedWith(le, z))
  {
    forall z
      ensures Filter(Sort(s, le), TiedWith(le, z)) == Filter(s, TiedWith(le, z))
    {
      SortStable(s, le, z);
    }
  }

  /** Sorting does not change the sum of a measure over the elements. */
  lemma {:induction false} SortSum<T>(s: seq<T>, le: (T, T) -> bool, f: T -> int)
    ensures SumOf(Sort(s, le), f) == SumOf(s, f)
  {
    if |s| > 0 {
      SortSum(s[1..], le, f);
      InsertSum(s[0], Sort(s[1..], le), le, f);
    }
  }

  lemma {:induction false} InsertSum<T>(x: T, s: seq<T>, le: (T, T) -> bool, f: T -> int)
    ensures SumOf(Insert(x, s, le), f) == f(x) + SumOf(s, f)
  {
    if |s| > 0 && !le(x, s[0]) {
      InsertSum(x, s[1..], le, f);
      assert ([s[0]] + Insert(x, s[1..], le))[1..] == Insert(x, s[1..], le);
    } else if |s| > 0 {
      assert ([x] + s)[1..] == s;
    }
  }

  lemma {:induction false} InsertDistinct<T, K>(x: T, s: seq<T>, le: (T, T) -> bool, key: T -> K)
    requires DistinctBy(s, key)
    requires forall k :: 0 <= k < |s| ==> key(s[k]) != key(x)
    ensures DistinctBy(Insert(x, s, le), key)
  {
    InsertMultiset(x, s, le);
    if |s| > 0 && !le(x, s[0]) {
      InsertDistinct(x, s[1..], le, key);
      var t := Insert(x, s[1..], le);
      InsertMultiset(x, s[1..], le);
      forall k | 0 <= k < |t|
        ensures key(t[k]) != key(s[0])
      {
        assert t[k] in multiset(t);
        if t[k] != x {
          assert t[k] in s[1..];
        }
      }
    }
  }

  /** Sorting keeps keys distinct. */
  lemma {:induction false} SortDistinct<T, K>(s: seq<T>, le: (T, T) -> bool, key: T -> K)
    requires DistinctBy(s, key)
    ensures DistinctBy(Sort(s, le), key)
  {
    if |s| > 0 {
      SortDistinct(s[1..], le, key);
      SortMembers(s[1..], le);
      var t := Sort(s[1..], le);
      forall k | 0 <= k < |t|
        ensures key(t[k]) != key(s[0])
      {
        SortMultiset(s[1..], le);
        assert t[k] in multiset(t);
        assert t[k] in multiset(s[1..]);
        var m :| 0 <= m < |s| - 1 && s[1..][m] == t[k];
        assert s[m + 1] == t[k];
      }
      InsertDistinct(s[0], t, le, key);
    }
  }

  /** Under an antisymmetric order there is only one sorted arrangement of a
      multiset: sorting forgets the order of its input. */
  lemma {:induction false} SortedUnique<T(!new)>(a: seq<T>, b: seq<T>, le: (T, T) -> bool)
    requires TotalPreorder(le) && Antisymmetric(le)
    requires SortedBy(a, le) && SortedBy(b, le)
    requires multiset(a) == multiset(b)
    ensures a == b
    decreases |a|
  {
    if |a| > 0 {
      SameHead(a, b, le);
      SameTailMultiset(a, b);
      SortedTail(a, le);
      SortedTail(b, le);
      SortedUnique(a[1..], b[1..], le);
      assert a == [a[0]] + a[1..];
      assert b == [b[0]] + b[1..];
    }
  }

  /** Two sorted arrangements of one multiset start alike. */
  lemma SameHead<T(!new)>(a: seq<T>, b: seq<T>, le: (T, T) -> bool)
    requires TotalPreorder(le) && Antisymmetric(le)
    requires SortedBy(a, le) && SortedBy(b, le)
    requires multiset(a) == multiset(b) && |a| > 0
    ensures |b| > 0 && a[0] == b[0]
  {
    assert |b| == |multiset(b)| == |a|;
    assert a[0] in multiset(b) && b[0] in multiset(a);
    HeadIsLeast(b, le, a[0]);
    HeadIsLeast(a, le, b[0]);
  }

  lemma SameTailMultiset<T>(a: seq<T>, b: seq<T>)
    requires multiset(a) == multiset(b) && |a| > 0 && |b| > 0 && a[0] == b[0]
    ensures multiset(a[1..]) == multiset(b[1..])
  {
    assert a == [a[0]] + a[1..];
    assert b == [b[0]] + b[1..];
    assert multiset(a) == multiset{a[0]} + multiset(a[1..]);
    assert multiset(b) == multiset{b[0]} + multiset(b[1..]);
    forall x
      ensures multiset(a[1..])[x] == multiset(b[1..])[x]
    {
      assert multiset(a)[x] == multiset(b)[x];
    }
  }

  lemma SortedTail<T>(s: seq<T>, le: (T, T) -> bool)
    requires SortedBy(s, le) && |s| > 0
    ensures SortedBy(s[1..], le)
  {
    assert forall i :: 0 <= i < |s| - 1 ==> s[1..][i] == s[i + 1];
  }

  /** The head of a sorted sequence comes before each of its elements. */
  lemma HeadIsLeast<T(!new)>(s: seq<T>, le: (T, T) -> bool, x: T)
    requires TotalPreorder(le) && SortedBy(s, le)
    requires x in multiset(s)
    ensures le(s[0], x)
  {
    var i :| 0 <= i < |s| && s[i] == x;
    if i == 0 {
      assert le(x, x) || le(x, x);
    }
  }

  /** Sorting two permutations of each other under an antisymmetric order
      gives the same sequence. */
  lemma SortPermutationInvariant<T(!new)>(s: seq<T>, t: seq<T>, le: (T, T) -> bool)
    requires TotalPreorder(le) && Antisymmetric(le)
    requires multiset(s) == multiset(t)
    ensures Sort(s, le) == Sort(t, le)
  {
    SortSorted(s, le);
    SortSorted(t, le);
    SortMultiset(s, le);
    SortMultiset(t, le);
    SortedUnique(Sort(s, le), Sort(t, le), le);
  }

  // ---------------------------------------------------------------------
  // Python's ordering of `str`: code point by code point, a proper prefix first.

  predicate StrLe(a: string, b: string)
  {
    if |a| == 0 then true
    else if |b| == 0 then false
    else if a[0] != b[0] then a[0] < b[0]
    else StrLe(a[1..], b[1..])
  }

  lemma {:induction false} StrLeTotal(a: string, b: string)
    ensures StrLe(a, b) || StrLe(b, a)
  {
    if |a| > 0 && |b| > 0 && a[0] == b[0] {
      StrLeTotal(a[1..], b[1..]);
    }
  }

  lemma {:induction false} StrLeTransitive(a: string, b: string, c: string)
    requires StrLe(a, b) && StrLe(b, c)
    ensures StrLe(a, c)
  {
    if |a| > 0 && |b| > 0 && |c| > 0 && a[0] == b[0] && b[0] == c[0] {
      StrLeTransitive(a[1..], b[1..], c[1..]);
    }
  }

  lemma {:induction false} StrLeAntisymmetric(a: string, b: string)
    requires StrLe(a, b) && StrLe(b, a)
    ensures a == b
  {
    if |a| > 0 && |b| > 0 {
      StrLeAntisymmetric(a[1..], b[1..]);
      assert a == [a[0]] + a[1..];
      assert b == [b[0]] + b[1..];
    }
  }

  /** Python's string comparison is a total order. */
  lemma StrLeTotalOrder()
    ensures TotalPreorder(StrLe) && Antisymmetric(StrLe)
  {
    forall a, b
      ensures StrLe(a, b) || StrLe(b, a)
    {
      StrLeTotal(a, b);
    }
    forall a, b, c | StrLe(a, b) && StrLe(b, c)
      ensures StrLe(a, c)
    {
      StrLeTransitive(a, b, c);
    }
    forall a, b | StrLe(a, b) && StrLe(b, a)
      ensures a == b
    {
      StrLeAntisymmetric(a, b);
    }
  }

  /** `sorted(strings)`. */
  function SortStrings(s: seq<string>): (r: seq<string>)
    ensures multiset(r) == multiset(s)
    ensures SortedBy(r, StrLe)
  {
    StrLeTotalOrder();
    SortMultiset(s, StrLe);
    SortSorted(s, StrLe);
    Sort(s, StrLe)
  }

  /** `sorted` of strings ignores the order of its input. */
  lemma SortStringsPermutation(s: seq<string>, t: seq<string>)
    requires multiset(s) == multiset(t)
    ensures SortStrings(s) == SortStrings(t)
  {
    StrLeTotalOrder();
    SortPermutationInvariant(s, t, StrLe);
  }
}
