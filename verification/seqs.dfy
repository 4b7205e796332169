/** Kotlin collection operations the app leans on, over `seq`: `filter`,
    `distinctBy`, `find`, `map`, and the stable `sortedBy`/`sortedWith` of a
    list by a sort key. */
module Seqs {
  import opened Wrappers

  // ---------------------------------------------------------------------
  // filter

  /** `list.filter(p)`: the elements satisfying `p`, in their order. */
  function Filter<T>(s: seq<T>, p: T -> bool): (r: seq<T>)
    ensures |r| <= |s|
    ensures forall i :: 0 <= i < |r| ==> p(r[i]) && r[i] in s
  {
    if |s| == 0 then []
    else if p(s[0]) then [s[0]] + Filter(s[1..], p)
    else Filter(s[1..], p)
  }

  /** An element survives `filter` exactly when it is in the list and passes. */
  lemma {:induction false} FilterMembers<T>(s: seq<T>, p: T -> bool)
    ensures forall x :: x in Filter(s, p) <==> x in s && p(x)
  {
    if |s| > 0 {
      FilterMembers(s[1..], p);
    }
  }

  /** `filter` keeps every copy of a kept element and no copy of a dropped one. */
  lemma {:induction false} FilterCount<T>(s: seq<T>, p: T -> bool, x: T)
    ensures multiset(Filter(s, p))[x] == if p(x) then multiset(s)[x] else 0
  {
    if |s| > 0 {
      FilterCount(s[1..], p, x);
      assert s == [s[0]] + s[1..];
    }
  }

  /** `FilterCount` for every element at once. */
  lemma FilterCounts<T>(s: seq<T>, p: T -> bool)
    ensures forall x :: multiset(Filter(s, p))[x] == if p(x) then multiset(s)[x] else 0
  {
    forall x {
      FilterCount(s, p, x);
    }
  }

  lemma FilterSubMultiset<T>(s: seq<T>, p: T -> bool)
    ensures multiset(Filter(s, p)) <= multiset(s)
  {
    forall x | true
      ensures multiset(Filter(s, p))[x] <= multiset(s)[x]
    {
      FilterCount(s, p, x);
    }
  }

  /** A filter every element passes is the identity. */
  lemma {:induction false} FilterAll<T>(s: seq<T>, p: T -> bool)
    requires forall i :: 0 <= i < |s| ==> p(s[i])
    ensures Filter(s, p) == s
  {
    if |s| > 0 {
      FilterAll(s[1..], p);
    }
  }

  /** Two filters that agree on the list select the same elements. */
  lemma {:induction false} FilterExt<T>(s: seq<T>, p: T -> bool, q: T -> bool)
    requires forall i :: 0 <= i < |s| ==> p(s[i]) == q(s[i])
    ensures Filter(s, p) == Filter(s, q)
  {
    if |s| > 0 {
      FilterExt(s[1..], p, q);
    }
  }

  /** Filtering twice is filtering once by the conjunction. */
  lemma {:induction false} FilterFilter<T>(s: seq<T>, p: T -> bool, q: T -> bool, pq: T -> bool)
    requires forall x :: pq(x) == (p(x) && q(x))
    ensures Filter(Filter(s, p), q) == Filter(s, pq)
  {
    if |s| > 0 {
      FilterFilter(s[1..], p, q, pq);
    }
  }

  /** `filter` distributes over concatenation, so it keeps relative order. */
  lemma {:induction false} FilterAppend<T>(a: seq<T>, b: seq<T>, p: T -> bool)
    ensures Filter(a + b, p) == Filter(a, p) + Filter(b, p)
  {
    if |a| > 0 {
      assert (a + b)[1..] == a[1..] + b;
      assert (a + b)[0] == a[0];
      FilterAppend(a[1..], b, p);
    } else {
      assert a + b == b;
    }
  }

  /** `filter` results are subsequences of the input. */
  lemma {:induction false} FilterIsSubsequence<T>(s: seq<T>, p: T -> bool)
    ensures IsSubsequence(Filter(s, p), s)
  {
    if |s| > 0 {
      FilterIsSubsequence(s[1..], p);
    }
  }

  // ---------------------------------------------------------------------
  // order-preserving subsequences

  /** `a` is `b` with some elements removed and the rest in their order. */
  predicate IsSubsequence<T(==)>(a: seq<T>, b: seq<T>)
    decreases |b|
  {
    if |a| == 0 then true
    else if |b| == 0 then false
    else (a[0] == b[0] && IsSubsequence(a[1..], b[1..])) || IsSubsequence(a, b[1..])
  }

  lemma {:induction false} SubsequenceMembers<T>(a: seq<T>, b: seq<T>)
    requires IsSubsequence(a, b)
    ensures |a| <= |b|
    ensures forall x :: x in a ==> x in b
    decreases |b|
  {
    if |a| > 0 {
      assert a == [a[0]] + a[1..];
      assert b == [b[0]] + b[1..];
      if a[0] == b[0] && IsSubsequence(a[1..], b[1..]) {
        SubsequenceMembers(a[1..], b[1..]);
      } else {
        SubsequenceMembers(a, b[1..]);
      }
    }
  }

  lemma {:induction false} SubsequenceRefl<T>(a: seq<T>)
    ensures IsSubsequence(a, a)
  {
    if |a| > 0 {
      SubsequenceRefl(a[1..]);
    }
  }

  lemma {:induction false} SubsequenceTrans<T>(a: seq<T>, b: seq<T>, c: seq<T>)
    requires IsSubsequence(a, b) && IsSubsequence(b, c)
    ensures IsSubsequence(a, c)
    decreases |c|
  {
    if |a| > 0 {
      // b and c are non-empty here
      if b[0] == c[0] && IsSubsequence(b[1..], c[1..]) {
        if a[0] == b[0] && IsSubsequence(a[1..], b[1..]) {
          SubsequenceTrans(a[1..], b[1..], c[1..]);
        } else {
          SubsequenceTrans(a, b[1..], c[1..]);
        }
      } else {
        SubsequenceTrans(a, b, c[1..]);
      }
    }
  }

  // ---------------------------------------------------------------------
  // distinctBy, find

  /** `list.distinctBy(key)`: the first element of every key, in order. */
  function DistinctBy<T, K(==)>(s: seq<T>, key: T -> K): (r: seq<T>)
    ensures KeysUnique(r, key)
    ensures IsSubsequence(r, s)
  {
    DistinctFrom(s, key, {})
  }

  /** `distinctBy` continued with the keys in `seen` already taken. */
  function DistinctFrom<T, K(==)>(s: seq<T>, key: T -> K, seen: set<K>): (r: seq<T>)
    ensures KeysUnique(r, key)
    ensures forall i :: 0 <= i < |r| ==> key(r[i]) !in seen
    ensures IsSubsequence(r, s)
  {
    if |s| == 0 then []
    else if key(s[0]) in seen then
      var r := DistinctFrom(s[1..], key, seen);
      assert IsSubsequence(r, s) by { SkipFirst(r, s); }
      r
    else
      var rest := DistinctFrom(s[1..], key, seen + {key(s[0])});
      [s[0]] + rest
  }

  lemma SkipFirst<T>(r: seq<T>, s: seq<T>)
    requires |s| > 0 && IsSubsequence(r, s[1..])
    ensures IsSubsequence(r, s)
  {
  }

  predicate KeysUnique<T, K(==)>(s: seq<T>, key: T -> K) {
    forall i, j :: 0 <= i < j < |s| ==> key(s[i]) != key(s[j])
  }

  /** An element at two positions is counted at least twice. */
  lemma TwoPositionsCount<T>(s: seq<T>, i: int, j: int)
    requires 0 <= i < j < |s| && s[i] == s[j]
    ensures multiset(s)[s[i]] >= 2
  {
    var x := s[i];
    assert s == s[..j] + [s[j]] + s[j + 1..];
    assert s[..j][i] == x;
    assert x in multiset(s[..j]);
  }

  /** An element counted at least twice sits at two positions. */
  lemma {:induction false} CountTwoPositions<T>(s: seq<T>, x: T)
    requires multiset(s)[x] >= 2
    ensures exists p, q :: 0 <= p < q < |s| && s[p] == x && s[q] == x
  {
    assert s == [s[0]] + s[1..];
    if s[0] == x {
      assert x in multiset(s[1..]);
      var q :| 0 <= q < |s[1..]| && s[1..][q] == x;
      assert s[q + 1] == x;
    } else {
      CountTwoPositions(s[1..], x);
      var p, q :| 0 <= p < q < |s[1..]| && s[1..][p] == x && s[1..][q] == x;
      assert s[p + 1] == x && s[q + 1] == x;
    }
  }

  /** A sequence counting `a` once and nothing else is `[a]`. */
  lemma SingletonByCount<T>(r: seq<T>, a: T)
    requires multiset(r)[a] == 1
    requires forall x :: x != a ==> multiset(r)[x] == 0
    ensures r == [a]
  {
    assert multiset(r) == multiset{a};
    assert |r| == |multiset(r)| == 1;
    assert r[0] in multiset(r);
  }

  /** A reordering of two elements is them in one order or the other. */
  lemma PairByMultiset<T>(r: seq<T>, a: T, b: T)
    requires multiset(r) == multiset{a, b}
    ensures r == [a, b] || r == [b, a]
  {
    assert |r| == |multiset(r)| == 2;
    assert r[0] in multiset(r) && r[1] in multiset(r);
    if r[0] == a {
      assert multiset{a} + multiset{r[1]} == multiset{a, b};
    }
  }

  /** Reordering keeps keys unique. */
  lemma PermutationKeysUnique<T, K>(a: seq<T>, b: seq<T>, key: T -> K)
    requires multiset(a) == multiset(b) && KeysUnique(a, key)
    ensures KeysUnique(b, key)
  {
    forall i, j | 0 <= i < j < |b|
      ensures key(b[i]) != key(b[j])
    {
      if b[i] == b[j] {
        TwoPositionsCount(b, i, j);
        CountTwoPositions(a, b[i]);
      } else {
        assert b[i] in multiset(a) && b[j] in multiset(a);
      }
    }
  }

  /** `x` sits at its key's first occurrence in `s`. */
  predicate IsFirstOfKey<T(==), K(==)>(s: seq<T>, key: T -> K, x: T) {
    exists i :: 0 <= i < |s| && s[i] == x && forall j :: 0 <= j < i ==> key(s[j]) != key(x)
  }

  lemma {:induction false} DistinctFromKeys<T, K>(s: seq<T>, key: T -> K, seen: set<K>)
    ensures forall x :: x in s && key(x) !in seen ==> key(x) in Map(DistinctFrom(s, key, seen), key)
    ensures forall x :: x in DistinctFrom(s, key, seen) ==> IsFirstOfKey(s, key, x)
  {
    var r := DistinctFrom(s, key, seen);
    if |s| > 0 {
      var k := key(s[0]);
      var seen' := if k in seen then seen else seen + {k};
      DistinctFromKeys(s[1..], key, seen');
      var r' := DistinctFrom(s[1..], key, seen');
      forall x | x in r
        ensures IsFirstOfKey(s, key, x)
      {
        if k !in seen && x == s[0] {
          assert s[0] == x;
        } else {
          assert x in r';
          var i :| 0 <= i < |s[1..]| && s[1..][i] == x && forall j :: 0 <= j < i ==> key(s[1..][j]) != key(x);
          assert s[i + 1] == x;
          assert forall j :: 0 <= j < i + 1 ==> key(s[j]) != key(x) by {
            forall j | 0 <= j < i + 1
              ensures key(s[j]) != key(x)
            {
              if j > 0 {
                assert s[j] == s[1..][j - 1];
              } else {
                var m :| 0 <= m < |r'| && r'[m] == x;
              }
            }
          }
        }
      }
      forall x | x in s && key(x) !in seen
        ensures key(x) in Map(r, key)
      {
        if k !in seen {
          assert Map(r, key)[0] == k;
          if key(x) != k {
            assert x in s[1..];
            var i :| 0 <= i < |r'| && Map(r', key)[i] == key(x);
            assert Map(r, key)[i + 1] == key(r'[i]);
          }
        } else {
          assert x in s[1..];
          assert r == r';
        }
      }
    }
  }

  /** `distinctBy` keeps exactly one element of every key of the input, and
      that element is the first one carrying the key. */
  lemma DistinctByKeys<T, K>(s: seq<T>, key: T -> K)
    ensures forall x :: x in s ==> key(x) in Map(DistinctBy(s, key), key)
    ensures forall x :: x in DistinctBy(s, key) ==> IsFirstOfKey(s, key, x)
  {
    DistinctFromKeys(s, key, {});
  }

  /** On a list whose keys are already distinct, `distinctBy` changes nothing. */
  lemma {:induction false} DistinctFromUnique<T, K>(s: seq<T>, key: T -> K, seen: set<K>)
    requires KeysUnique(s, key)
    requires forall i :: 0 <= i < |s| ==> key(s[i]) !in seen
    ensures DistinctFrom(s, key, seen) == s
  {
    if |s| > 0 {
      DistinctFromUnique(s[1..], key, seen + {key(s[0])});
    }
  }

  /** `distinctBy` is idempotent. */
  lemma DistinctByIdempotent<T, K>(s: seq<T>, key: T -> K)
    ensures DistinctBy(DistinctBy(s, key), key) == DistinctBy(s, key)
  {
    DistinctFromUnique(DistinctBy(s, key), key, {});
  }

  /** Where key `k` first occurs in `s`, or `|s|` when it never does. */
  function FirstKeyIndex<T, K(==)>(s: seq<T>, key: T -> K, k: K): (n: nat)
    ensures n <= |s|
    ensures n < |s| ==> key(s[n]) == k
    ensures forall j :: 0 <= j < n ==> key(s[j]) != k
  {
    if |s| == 0 then 0
    else if key(s[0]) == k then 0
    else 1 + FirstKeyIndex(s[1..], key, k)
  }

  /** `r` lists its keys in the order in which they first occur in `s`. */
  predicate InFirstOccurrenceOrder<T, K(==)>(r: seq<T>, s: seq<T>, key: T -> K) {
    forall i, j :: 0 <= i < j < |r| ==> FirstKeyIndex(s, key, key(r[i])) < FirstKeyIndex(s, key, key(r[j]))
  }

  /** `distinctBy` lists the keys in order of their first occurrence. */
  lemma {:induction false} DistinctFromOrder<T, K>(s: seq<T>, key: T -> K, seen: set<K>)
    ensures InFirstOccurrenceOrder(DistinctFrom(s, key, seen), s, key)
  {
    if |s| > 0 {
      var k := key(s[0]);
      var seen' := if k in seen then seen else seen + {k};
      DistinctFromOrder(s[1..], key, seen');
      var r := DistinctFrom(s, key, seen);
      var r' := DistinctFrom(s[1..], key, seen');
      assert forall i :: 0 <= i < |r'| ==>
        FirstKeyIndex(s, key, key(r'[i])) == 1 + FirstKeyIndex(s[1..], key, key(r'[i]));
      if k !in seen {
        assert r == [s[0]] + r';
        forall i, j | 0 <= i < j < |r|
          ensures FirstKeyIndex(s, key, key(r[i])) < FirstKeyIndex(s, key, key(r[j]))
        {
          assert r[j] == r'[j - 1];
          if i > 0 {
            assert r[i] == r'[i - 1];
          }
        }
      }
    }
  }

  /** Two strictly increasing lists with the same elements are equal. */
  lemma {:induction false} IncreasingSameElements(a: seq<int>, b: seq<int>)
    requires forall i, j :: 0 <= i < j < |a| ==> a[i] < a[j]
    requires forall i, j :: 0 <= i < j < |b| ==> b[i] < b[j]
    requires forall x :: x in a <==> x in b
    ensures a == b
  {
    assert |a| > 0 ==> a[0] in a && a[0] in b;
    assert |b| > 0 ==> b[0] in b && b[0] in a;
    if |a| > 0 {
      var i :| 0 <= i < |b| && b[i] == a[0];
      var j :| 0 <= j < |a| && a[j] == b[0];
      assert a[0] == b[0] by {
        assert b[0] <= b[i] && a[0] <= a[j];
      }
      forall x
        ensures x in a[1..] <==> x in b[1..]
      {
        if x in a[1..] {
          var n :| 0 <= n < |a| - 1 && a[1..][n] == x;
          assert a[n + 1] == x && x in b;
          var m :| 0 <= m < |b| && b[m] == x;
          assert m > 0 && b[1..][m - 1] == x;
        }
        if x in b[1..] {
          var n :| 0 <= n < |b| - 1 && b[1..][n] == x;
          assert b[n + 1] == x && x in a;
          var m :| 0 <= m < |a| && a[m] == x;
          assert m > 0 && a[1..][m - 1] == x;
        }
      }
      IncreasingSameElements(a[1..], b[1..]);
      assert a == [a[0]] + a[1..] && b == [b[0]] + b[1..];
    }
  }

  /** `list.find(p)`: the first element satisfying `p`, or null. */
  function Find<T>(s: seq<T>, p: T -> bool): (r: Option<T>)
    ensures r.Some? <==> exists i :: 0 <= i < |s| && p(s[i])
    ensures r.Some? ==> r.value in s && p(r.value)
  {
    if |s| == 0 then None
    else if p(s[0]) then Some(s[0])
    else
      var r := Find(s[1..], p);
      assert (exists i :: 0 <= i < |s[1..]| && p(s[1..][i])) <==> (exists i :: 1 <= i < |s| && p(s[i])) by {
        forall i | 1 <= i < |s| ensures s[1..][i - 1] == s[i] { }
      }
      r
  }

  /** `find` returns the element at the first index satisfying `p`. */
  lemma {:induction false} FindFirst<T>(s: seq<T>, p: T -> bool, i: int)
    requires 0 <= i < |s| && p(s[i])
    requires forall j :: 0 <= j < i ==> !p(s[j])
    ensures Find(s, p) == Some(s[i])
  {
    if i > 0 {
      FindFirst(s[1..], p, i - 1);
    }
  }

  /** `list.map(f)`. */
  function Map<T, U>(s: seq<T>, f: T -> U): (r: seq<U>)
    ensures |r| == |s|
    ensures forall i :: 0 <= i < |s| ==> r[i] == f(s[i])
  {
    seq(|s|, i requires 0 <= i < |s| => f(s[i]))
  }

  // ---------------------------------------------------------------------
  // Sort keys and the stable sort

  /** Every sort key the app uses, as a pair compared lexicographically:
      a number first, then a string. `sortedBy { it.createdAt }` uses the
      number alone, `sortedBy { it.title.lowercase() }` the string alone,
      and `nullsLast` puts present values at rank 0 and null at rank 1. */
  datatype SortKey = SortKey(rank: int, text: string)

  /** `a.compareTo(b) <= 0` for Kotlin strings: char by char, and a proper
      prefix before the longer string. */
  predicate TextLe(a: string, b: string) {
    |a| == 0 || (|b| > 0 && (a[0] < b[0] || (a[0] == b[0] && TextLe(a[1..], b[1..]))))
  }

  predicate KeyLe(a: SortKey, b: SortKey) {
    a.rank < b.rank || (a.rank == b.rank && TextLe(a.text, b.text))
  }

  lemma {:induction false} TextLeTotal(a: string, b: string)
    ensures TextLe(a, b) || TextLe(b, a)
    ensures TextLe(a, b) && TextLe(b, a) ==> a == b
  {
    if |a| > 0 && |b| > 0 && a[0] == b[0] {
      TextLeTotal(a[1..], b[1..]);
      assert a == [a[0]] + a[1..];
      assert b == [b[0]] + b[1..];
    }
  }

  lemma {:induction false} TextLeTrans(a: string, b: string, c: string)
    requires TextLe(a, b) && TextLe(b, c)
    ensures TextLe(a, c)
  {
    if |a| > 0 && a[0] == b[0] && b[0] == c[0] {
      TextLeTrans(a[1..], b[1..], c[1..]);
    }
  }

  lemma {:induction false} TextLeRefl(a: string)
    ensures TextLe(a, a)
  {
    if |a| > 0 {
      TextLeRefl(a[1..]);
    }
  }

  /** The key order is a total order: reflexive, total, antisymmetric and
      transitive. */
  lemma KeyLeOrder(a: SortKey, b: SortKey, c: SortKey)
    ensures KeyLe(a, a)
    ensures KeyLe(a, b) || KeyLe(b, a)
    ensures KeyLe(a, b) && KeyLe(b, a) ==> a == b
    ensures KeyLe(a, b) && KeyLe(b, c) ==> KeyLe(a, c)
  {
    TextLeRefl(a.text);
    TextLeTotal(a.text, b.text);
    if KeyLe(a, b) && KeyLe(b, c) && a.rank == b.rank == c.rank {
      TextLeTrans(a.text, b.text, c.text);
    }
  }

  predicate SortedBy<T>(s: seq<T>, key: T -> SortKey) {
    forall i, j :: 0 <= i < j < |s| ==> KeyLe(key(s[i]), key(s[j]))
  }

  /** Dropping elements from a sorted sequence leaves it sorted. */
  lemma {:induction false} SubsequenceSorted<T>(a: seq<T>, b: seq<T>, key: T -> SortKey)
    requires IsSubsequence(a, b) && SortedBy(b, key)
    ensures SortedBy(a, key)
    decreases |b|
  {
    if |a| > 0 {
      assert SortedBy(b[1..], key);
      if a[0] == b[0] && IsSubsequence(a[1..], b[1..]) {
        SubsequenceSorted(a[1..], b[1..], key);
        SubsequenceMembers(a[1..], b[1..]);
        forall j | 1 <= j < |a|
          ensures KeyLe(key(a[0]), key(a[j]))
        {
          assert a[1..][j - 1] == a[j];
          assert a[j] in b[1..];
          var k :| 0 <= k < |b[1..]| && b[1..][k] == a[j];
          assert b[k + 1] == a[j];
        }
      } else {
        SubsequenceSorted(a, b[1..], key);
      }
    }
  }

  /** Dropping elements keeps keys unique. */
  lemma {:induction false} SubsequenceKeysUnique<T, K>(a: seq<T>, b: seq<T>, key: T -> K)
    requires IsSubsequence(a, b) && KeysUnique(b, key)
    ensures KeysUnique(a, key)
    decreases |b|
  {
    if |a| > 0 {
      assert KeysUnique(b[1..], key);
      if a[0] == b[0] && IsSubsequence(a[1..], b[1..]) {
        SubsequenceKeysUnique(a[1..], b[1..], key);
        SubsequenceMembers(a[1..], b[1..]);
        forall j | 1 <= j < |a|
          ensures key(a[0]) != key(a[j])
        {
          assert a[1..][j - 1] == a[j];
          assert a[j] in b[1..];
          var k :| 0 <= k < |b[1..]| && b[1..][k] == a[j];
          assert b[k + 1] == a[j];
        }
      } else {
        SubsequenceKeysUnique(a, b[1..], key);
      }
    }
  }

  /** The elements of `s` whose key is `k`, in order. */
  function WithKey<T>(s: seq<T>, key: T -> SortKey, k: SortKey): seq<T> {
    if |s| == 0 then []
    else if key(s[0]) == k then [s[0]] + WithKey(s[1..], key, k)
    else WithKey(s[1..], key, k)
  }

  /** Places `x` before the first element whose key is not below its own. */
  function Insert<T>(x: T, t: seq<T>, key: T -> SortKey): (r: seq<T>)
    ensures |r| == |t| + 1
    ensures multiset(r) == multiset(t) + multiset{x}
  {
    if |t| == 0 || KeyLe(key(x), key(t[0])) then [x] + t
    else
      var r := [t[0]] + Insert(x, t[1..], key);
      assert t == [t[0]] + t[1..];
      r
  }

  /** `sortedBy(key)`: Kotlin's stable sort, as an insertion sort. */
  function SortBy<T>(s: seq<T>, key: T -> SortKey): (r: seq<T>)
    ensures |r| == |s|
    ensures multiset(r) == multiset(s)
  {
    if |s| == 0 then []
    else
      var r := Insert(s[0], SortBy(s[1..], key), key);
      assert s == [s[0]] + s[1..];
      r
  }

  lemma {:induction false} InsertSorted<T>(x: T, t: seq<T>, key: T -> SortKey)
    requires SortedBy(t, key)
    ensures SortedBy(Insert(x, t, key), key)
  {
    var r := Insert(x, t, key);
    if |t| == 0 {
    } else if KeyLe(key(x), key(t[0])) {
      forall i, j | 0 <= i < j < |r|
        ensures KeyLe(key(r[i]), key(r[j]))
      {
        if i == 0 {
          KeyLeOrder(key(x), key(t[0]), key(t[j - 1]));
        }
      }
    } else {
      var rest := Insert(x, t[1..], key);
      InsertSorted(x, t[1..], key);
      KeyLeOrder(key(x), key(t[0]), key(x));
      forall j | 0 <= j < |rest|
        ensures KeyLe(key(t[0]), key(rest[j]))
      {
        assert rest[j] in multiset(rest);
        if rest[j] != x {
          assert rest[j] in multiset(t[1..]);
          var m :| 0 <= m < |t[1..]| && t[1..][m] == rest[j];
          assert t[m + 1] == rest[j];
        }
      }
    }
  }

  /** `sortedBy` yields a list in key order. */
  lemma {:induction false} SortBySorted<T>(s: seq<T>, key: T -> SortKey)
    ensures SortedBy(SortBy(s, key), key)
  {
    if |s| > 0 {
      SortBySorted(s[1..], key);
      InsertSorted(s[0], SortBy(s[1..], key), key);
    }
  }

  lemma {:induction false} InsertWithKey<T>(x: T, t: seq<T>, key: T -> SortKey, k: SortKey)
    ensures WithKey(Insert(x, t, key), key, k)
         == (if key(x) == k then [x] else []) + WithKey(t, key, k)
  {
    if |t| > 0 && !KeyLe(key(x), key(t[0])) {
      InsertWithKey(x, t[1..], key, k);
      KeyLeOrder(key(x), key(t[0]), key(x));
      var r := Insert(x, t, key);
      assert r[1..] == Insert(x, t[1..], key);
    } else {
      var r := Insert(x, t, key);
      assert r[1..] == t;
    }
  }

  /** `sortedBy` is stable: the elements sharing any one key come out in
      their input order. */
  lemma {:induction false} SortByStable<T>(s: seq<T>, key: T -> SortKey, k: SortKey)
    ensures WithKey(SortBy(s, key), key, k) == WithKey(s, key, k)
  {
    if |s| > 0 {
      SortByStable(s[1..], key, k);
      InsertWithKey(s[0], SortBy(s[1..], key), key, k);
    }
  }
}
