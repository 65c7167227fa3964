/** Generic sequence vocabulary shared by every callback model: an optional
    value, order-preserving filtering, sums and duplicate-freedom. */
module Seqs {

  /** Python's `None` / a present value. */
  datatype Option<+T> = None | Some(value: T)

  /** The value of a callback output: Dash's `no_update`, or a new value. */
  datatype Update<T> = NoUpdate | Set(value: T)

  /** The elements of `s` that satisfy `p`, in their original order
      (a list comprehension with an `if` clause). */
  function Filter<T(==)>(s: seq<T>, p: T -> bool): (r: seq<T>)
    ensures |r| <= |s|
    ensures forall i :: 0 <= i < |r| ==> r[i] in s && p(r[i])
    ensures forall i :: 0 <= i < |s| && p(s[i]) ==> s[i] in r
  {
    if |s| == 0 then [] else (if p(s[0]) then [s[0]] else []) + Filter(s[1..], p)
  }

  /** Filtering distributes over concatenation, which is what "keeps the
      original order" means for a filter. */
  lemma {:induction false} FilterConcat<T>(a: seq<T>, b: seq<T>, p: T -> bool)
    ensures Filter(a + b, p) == Filter(a, p) + Filter(b, p)
  {
    if |a| == 0 {
      assert a + b == b;
    } else {
      assert (a + b)[1..] == a[1..] + b;
      FilterConcat(a[1..], b, p);
    }
  }

  /** Filtering keeps every copy of an element it accepts and no copy of
      one it rejects. */
  lemma {:induction false} FilterCount<T>(s: seq<T>, p: T -> bool, x: T)
    ensures multiset(Filter(s, p))[x] == if p(x) then multiset(s)[x] else 0
  {
    if |s| > 0 {
      FilterCount(s[1..], p, x);
      var head := if p(s[0]) then [s[0]] else [];
      assert Filter(s, p) == head + Filter(s[1..], p);
      assert s == [s[0]] + s[1..];
    }
  }

  /** Concatenation regroups freely. */
  lemma ConcatAssoc<T>(h: seq<T>, c: seq<T>, d: seq<T>)
    ensures h + (c + d) == (h + c) + d
  {
  }

  /** A filter that every element passes keeps everything. */
  lemma {:induction false} FilterAll<T>(s: seq<T>, p: T -> bool)
    requires forall i :: 0 <= i < |s| ==> p(s[i])
    ensures Filter(s, p) == s
  {
    if |s| > 0 {
      FilterAll(s[1..], p);
      assert s == [s[0]] + s[1..];
    }
  }

  /** Filtering keeps exactly the elements of a one-element sequence that pass. */
  lemma FilterSingleton<T>(x: T, p: T -> bool)
    ensures Filter([x], p) == if p(x) then [x] else []
  {
    assert [x][1..] == [];
  }

  /** The sum of `f` over `s`. */
  function SumOf<T(==)>(s: seq<T>, f: T -> int): int
  {
    if |s| == 0 then 0 else f(s[0]) + SumOf(s[1..], f)
  }

  lemma {:induction false} SumOfConcat<T>(a: seq<T>, b: seq<T>, f: T -> int)
    ensures SumOf(a + b, f) == SumOf(a, f) + SumOf(b, f)
  {
    if |a| == 0 {
      assert a + b == b;
    } else {
      assert (a + b)[1..] == a[1..] + b;
      SumOfConcat(a[1..], b, f);
    }
  }

  /** No value occurs twice. */
  predicate Distinct<T(==)>(s: seq<T>)
  {
    forall i, j :: 0 <= i < j < |s| ==> s[i] != s[j]
  }

  /** The present values of a sequence of optional values, in order. */
  function Somes<T(==)>(s: seq<Option<T>>): (r: seq<T>)
    ensures |r| <= |s|
    ensures forall i :: 0 <= i < |r| ==> Some(r[i]) in s
    ensures forall i :: 0 <= i < |s| && s[i].Some? ==> s[i].value in r
  {
    if |s| == 0 then []
    else (if s[0].Some? then [s[0].value] else []) + Somes(s[1..])
  }

  /** A value occurs in `Somes(s)` as often as `Some(value)` occurs in `s`. */
  lemma {:induction false} SomesCount<T>(s: seq<Option<T>>, v: T)
    ensures multiset(Somes(s))[v] == multiset(s)[Some(v)]
  {
    if |s| > 0 {
      assert s == [s[0]] + s[1..];
      SomesCount(s[1..], v);
      assert multiset(s) == multiset{s[0]} + multiset(s[1..]);
    }
  }

  /** Only a sequence without gaps keeps all its entries. */
  lemma {:induction false} SomesFull<T>(s: seq<Option<T>>)
    requires |Somes(s)| == |s|
    ensures forall i :: 0 <= i < |s| ==> s[i].Some?
  {
    if |s| > 0 {
      assert s[0].Some?;
      SomesFull(s[1..]);
      assert forall i :: 1 <= i < |s| ==> s[i] == s[1..][i - 1];
    }
  }

  /** `Somes` works piece by piece over a concatenation. */
  lemma {:induction false} SomesConcat<T>(a: seq<Option<T>>, b: seq<Option<T>>)
    ensures Somes(a + b) == Somes(a) + Somes(b)
  {
    if |a| > 0 {
      assert (a + b)[1..] == a[1..] + b;
      SomesConcat(a[1..], b);
    } else {
      assert a + b == b;
    }
  }

  /** A sequence of absent values has no present ones. */
  lemma {:induction false} SomesNone<T>(s: seq<Option<T>>)
    requires forall i :: 0 <= i < |s| ==> s[i].None?
    ensures Somes(s) == []
  {
    if |s| > 0 {
      SomesNone(s[1..]);
    }
  }

  lemma SomesPermutation<T>(s: seq<Option<T>>, t: seq<Option<T>>)
    requires multiset(s) == multiset(t)
    ensures multiset(Somes(s)) == multiset(Somes(t))
  {
    forall v
      ensures multiset(Somes(s))[v] == multiset(Somes(t))[v]
    {
      SomesCount(s, v);
      SomesCount(t, v);
    }
  }

  /** No two elements share a key. */
  predicate DistinctBy<T, K(==)>(s: seq<T>, key: T -> K)
  {
    forall i, j :: 0 <= i < j < |s| ==> key(s[i]) != key(s[j])
  }

  /** `[f(x) for x in s]`. */
  function Map<T, U>(s: seq<T>, f: T -> U): (r: seq<U>)
    ensures |r| == |s|
    ensures forall i :: 0 <= i < |s| ==> r[i] == f(s[i])
  {
    seq(|s|, i requires 0 <= i < |s| => f(s[i]))
  }

  lemma MapConcat<T, U>(a: seq<T>, b: seq<T>, f: T -> U)
    ensures Map(a + b, f) == Map(a, f) + Map(b, f)
  {
  }

  /** Removing the element at `k` removes one copy of it from the multiset. */
  lemma RemoveAt<T>(s: seq<T>, k: nat)
    requires k < |s|
    ensures multiset(s[..k] + s[k + 1..]) == multiset(s) - multiset{s[k]}
  {
    assert s == s[..k] + [s[k]] + s[k + 1..];
  }

  /** Mapping a permutation gives a permutation of the image. */
  lemma {:induction false} MapPermutation<T, U>(a: seq<T>, b: seq<T>, f: T -> U)
    requires multiset(a) == multiset(b)
    ensures multiset(Map(a, f)) == multiset(Map(b, f))
    decreases |a|
  {
    if |a| == 0 {
      assert |b| == |multiset(b)| == 0;
    } else {
      var x := a[0];
      assert x in multiset(b);
      var k :| 0 <= k < |b| && b[k] == x;
      var pre, post := b[..k], b[k + 1..];
      assert b == pre + [x] + post;
      assert a == [x] + a[1..];
      assert multiset(a[1..]) == multiset(pre + post) by {
        RemoveAt(a, 0);
        RemoveAt(b, k);
        assert a[..0] + a[1..] == a[1..];
      }
      MapPermutation(a[1..], pre + post, f);
      MapConcat([x], a[1..], f);
      MapConcat(pre + [x], post, f);
      MapConcat(pre, [x], f);
      MapConcat(pre, post, f);
      var fx := Map([x], f);
      assert Map(a, f) == fx + Map(a[1..], f);
      assert Map(b, f) == Map(pre, f) + fx + Map(post, f);
      Regroup(fx, Map(a[1..], f), Map(pre, f), Map(post, f));
    }
  }

  lemma Regroup<U>(x: seq<U>, m: seq<U>, p: seq<U>, q: seq<U>)
    requires multiset(m) == multiset(p + q)
    ensures multiset(x + m) == multiset(p + x + q)
  {
  }

  /** In a duplicate-free sequence every member occurs exactly once. */
  lemma {:induction false} DistinctCount<T>(s: seq<T>, x: T)
    requires Distinct(s)
    ensures multiset(s)[x] == if x in s then 1 else 0
  {
    if |s| > 0 {
      assert s == [s[0]] + s[1..];
      DistinctCount(s[1..], x);
    }
  }

  /** The members of `s` as a set. */
  function ToSet<T(!new)>(s: seq<T>): (r: set<T>)
    ensures forall x :: x in r <==> x in s
  {
    set i | 0 <= i < |s| :: s[i]
  }

  /** A duplicate-free sequence has as many elements as its set of members. */
  lemma {:induction false} DistinctCard<T(!new)>(s: seq<T>)
    requires Distinct(s)
    ensures |ToSet(s)| == |s|
  {
    if |s| > 0 {
      var tail := s[1..];
      assert Distinct(tail) by {
        forall a, b | 0 <= a < b < |tail|
          ensures tail[a] != tail[b]
        {
          assert tail[a] == s[a + 1] && tail[b] == s[b + 1];
        }
      }
      DistinctCard(tail);
      assert s[0] !in tail by {
        forall k | 0 <= k < |tail|
          ensures tail[k] != s[0]
        {
          assert tail[k] == s[k + 1];
        }
      }
      assert ToSet(s) == {s[0]} + ToSet(tail) by {
        assert s == [s[0]] + tail;
      }
    }
  }

  /** Two duplicate-free sequences with the same members are permutations
      of each other. */
  lemma SameMembersPermutation<T>(a: seq<T>, b: seq<T>)
    requires Distinct(a) && Distinct(b)
    requires forall x :: x in a <==> x in b
    ensures multiset(a) == multiset(b)
  {
    forall x
      ensures multiset(a)[x] == multiset(b)[x]
    {
      DistinctCount(a, x);
      DistinctCount(b, x);
    }
  }

  /** Filtering keeps keys distinct. */
  lemma {:induction false} FilterDistinct<T, K>(s: seq<T>, p: T -> bool, key: T -> K)
    requires DistinctBy(s, key)
    ensures DistinctBy(Filter(s, p), key)
  {
    if |s| > 0 {
      var tail := s[1..];
      assert DistinctBy(tail, key) by {
        forall a, b | 0 <= a < b < |tail|
          ensures key(tail[a]) != key(tail[b])
        {
          assert tail[a] == s[a + 1] && tail[b] == s[b + 1];
        }
      }
      FilterDistinct(tail, p, key);
      var ft := Filter(tail, p);
      forall k | 0 <= k < |ft|
        ensures key(ft[k]) != key(s[0])
      {
        var m :| 0 <= m < |tail| && tail[m] == ft[k];
        assert tail[m] == s[m + 1];
      }
    }
  }

  /** The largest element, 0 for none (`max(s, default=0)`). */
  function MaxOf(s: seq<nat>): (n: nat)
    ensures forall i :: 0 <= i < |s| ==> s[i] <= n
    ensures |s| > 0 ==> n in s
    ensures |s| == 0 ==> n == 0
  {
    if |s| == 0 then 0
    else
      var rest := MaxOf(s[1..]);
      assert forall i :: 1 <= i < |s| ==> s[i] == s[1..][i - 1];
      if s[0] >= rest then s[0] else rest
  }

  /** The index of the first element with the largest measure. */
  function ArgMax<T>(s: seq<T>, f: T -> int): (i: nat)
    requires |s| > 0
    ensures i < |s|
    ensures forall j :: 0 <= j < |s| ==> f(s[j]) <= f(s[i])
  {
    if |s| == 1 then 0
    else
      var k := 1 + ArgMax(s[1..], f);
      assert forall j :: 1 <= j < |s| ==> s[j] == s[1..][j - 1];
      if f(s[0]) >= f(s[k]) then 0 else k
  }

  /** Sums agree on sequences whose elements agree on the measure. */
  lemma {:induction false} SumOfPointwise<T>(a: seq<T>, b: seq<T>, f: T -> int)
    requires |a| == |b|
    requires forall i :: 0 <= i < |a| ==> f(a[i]) == f(b[i])
    ensures SumOf(a, f) == SumOf(b, f)
  {
    if |a| > 0 {
      SumOfPointwise(a[1..], b[1..], f);
    }
  }
}
