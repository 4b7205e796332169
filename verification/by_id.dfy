/** The list updates every collection of the user document goes through,
    written once over any element type with a string id:
    `filter { it.id.isNotEmpty() }.distinctBy { it.id }` on load, append
    unless the id is taken, `map { if (it.id == x.id) x else it }`, and
    `filter { it.id != id }`. */
module ById {
  import opened Seqs

  // ---------------------------------------------------------------------
  // Load-time cleaning

  /** The elements whose id is not the empty string. */
  function WithId<T>(s: seq<T>, id: T -> string): seq<T> {
    Filter(s, x => id(x) != "")
  }

  /** Drops empty ids, then keeps the first element of every id. */
  function Clean<T>(s: seq<T>, id: T -> string): (r: seq<T>)
    ensures KeysUnique(r, id)
    ensures forall i :: 0 <= i < |r| ==> id(r[i]) != ""
    ensures IsSubsequence(r, s)
  {
    var r := DistinctBy(WithId(s, id), id);
    assert forall i :: 0 <= i < |r| ==> id(r[i]) != "" by {
      forall i | 0 <= i < |r|
        ensures id(r[i]) != ""
      {
        SubsequenceMembers(r, WithId(s, id));
        assert r[i] in WithId(s, id);
      }
    }
    FilterIsSubsequence(s, x => id(x) != "");
    SubsequenceTrans(r, WithId(s, id), s);
    r
  }

  /** Dropping empty ids before `distinctFrom` changes nothing once the
      empty id counts as taken. */
  lemma {:induction false} DistinctFromWithId<T>(s: seq<T>, id: T -> string, seen: set<string>)
    requires "" in seen
    ensures DistinctFrom(WithId(s, id), id, seen) == DistinctFrom(s, id, seen)
  {
    if |s| > 0 {
      DistinctFromWithId(s[1..], id, if id(s[0]) in seen then seen else seen + {id(s[0])});
    }
  }

  /** Marking a key taken that never occurs changes nothing. */
  lemma {:induction false} DistinctFromUnseen<T>(s: seq<T>, id: T -> string, seen: set<string>, k: string)
    requires forall i :: 0 <= i < |s| ==> id(s[i]) != k
    ensures DistinctFrom(s, id, seen + {k}) == DistinctFrom(s, id, seen)
  {
    if |s| > 0 {
      if id(s[0]) !in seen {
        assert seen + {k} + {id(s[0])} == seen + {id(s[0])} + {k};
        DistinctFromUnseen(s[1..], id, seen + {id(s[0])}, k);
      } else {
        DistinctFromUnseen(s[1..], id, seen, k);
      }
    }
  }

  /** Cleaning is `distinctBy` with the empty id taken from the start. */
  lemma CleanIsDistinctFrom<T>(s: seq<T>, id: T -> string)
    ensures Clean(s, id) == DistinctFrom(s, id, {""})
  {
    var w := WithId(s, id);
    DistinctFromUnseen(w, id, {}, "");
    assert {} + {""} == {""};
    DistinctFromWithId(s, id, {""});
  }

  /** Every non-empty id of the input survives cleaning, carried by the
      first element that has it. */
  lemma CleanKeepsFirst<T>(s: seq<T>, id: T -> string)
    ensures forall x :: x in s && id(x) != "" ==> id(x) in Map(Clean(s, id), id)
    ensures forall x :: x in Clean(s, id) ==> IsFirstOfKey(s, id, x)
  {
    CleanIsDistinctFrom(s, id);
    DistinctFromKeys(s, id, {""});
  }

  /** What load-time cleaning promises of `r` against the fetched `s`: ids
      unique and non-empty, the order of `s` kept, every non-empty id of
      `s` still present, each carried by the first element that has it,
      and the ids listed in the order they first occur in `s`. */
  predicate CleanOf<T(==)>(r: seq<T>, s: seq<T>, id: T -> string) {
    && KeysUnique(r, id)
    && (forall i :: 0 <= i < |r| ==> id(r[i]) != "")
    && IsSubsequence(r, s)
    && (forall x :: x in s && id(x) != "" ==> id(x) in Map(r, id))
    && (forall x :: x in r ==> IsFirstOfKey(s, id, x))
    && InFirstOccurrenceOrder(r, s, id)
  }

  /** `Clean` meets that promise. */
  lemma CleanMeetsSpec<T>(s: seq<T>, id: T -> string)
    ensures CleanOf(Clean(s, id), s, id)
  {
    CleanKeepsFirst(s, id);
    CleanIsDistinctFrom(s, id);
    DistinctFromOrder(s, id, {""});
  }

  /** `CleanOf` leaves no choice: the cleaned list is the only list that
      meets it. */
  lemma CleanOfUnique<T>(r: seq<T>, s: seq<T>, id: T -> string)
    requires CleanOf(r, s, id)
    ensures r == Clean(s, id)
  {
    var c := Clean(s, id);
    CleanMeetsSpec(s, id);
    CleanOfAgree(r, c, s, id);
  }

  /** Two lists meeting `CleanOf` for the same input are equal. */
  lemma CleanOfAgree<T>(r: seq<T>, c: seq<T>, s: seq<T>, id: T -> string)
    requires CleanOf(r, s, id) && CleanOf(c, s, id)
    ensures r == c
  {
    var f := (x: T) => FirstKeyIndex(s, id, id(x));
    var a, b := Map(r, f), Map(c, f);
    CleanOfAt(r, s, id);
    CleanOfAt(c, s, id);
    forall k | k in a
      ensures k in b
    {
      var n :| 0 <= n < |a| && a[n] == k;
      SameIdIn(r, c, s, id, n);
    }
    forall k | k in b
      ensures k in a
    {
      var n :| 0 <= n < |b| && b[n] == k;
      SameIdIn(c, r, s, id, n);
    }
    IncreasingSameElements(a, b);
    assert |r| == |c|;
    forall n | 0 <= n < |r|
      ensures r[n] == c[n]
    {
      assert r[n] == s[a[n]] && c[n] == s[b[n]];
    }
  }

  /** Under `CleanOf`, every element of `r` sits at its id's first index in `s`. */
  lemma CleanOfAt<T>(r: seq<T>, s: seq<T>, id: T -> string)
    requires CleanOf(r, s, id)
    ensures forall n :: 0 <= n < |r| ==>
      FirstKeyIndex(s, id, id(r[n])) < |s| && r[n] == s[FirstKeyIndex(s, id, id(r[n]))]
  {
    forall n | 0 <= n < |r|
      ensures FirstKeyIndex(s, id, id(r[n])) < |s| && r[n] == s[FirstKeyIndex(s, id, id(r[n]))]
    {
      assert r[n] in r;
      var i :| 0 <= i < |s| && s[i] == r[n] && forall j :: 0 <= j < i ==> id(s[j]) != id(r[n]);
      var m := FirstKeyIndex(s, id, id(r[n]));
      assert m <= i;
      assert m == i;
    }
  }

  /** Under `CleanOf` for both, the id of `r[n]` is the id of some element of `c`. */
  lemma SameIdIn<T>(r: seq<T>, c: seq<T>, s: seq<T>, id: T -> string, n: int)
    requires CleanOf(r, s, id) && CleanOf(c, s, id) && 0 <= n < |r|
    ensures FirstKeyIndex(s, id, id(r[n])) in Map(c, (x: T) => FirstKeyIndex(s, id, id(x)))
  {
    SubsequenceMembers(r, s);
    assert r[n] in r;
    var ids := Map(c, id);
    assert id(r[n]) in ids;
    var m :| 0 <= m < |ids| && ids[m] == id(r[n]);
    assert Map(c, (x: T) => FirstKeyIndex(s, id, id(x)))[m] == FirstKeyIndex(s, id, id(r[n]));
  }

  /** An element appended under a fresh, non-empty id survives cleaning. */
  lemma FreshAppendKept<T>(s: seq<T>, x: T, id: T -> string)
    requires id(x) != "" && !HasId(s, id, id(x))
    ensures x in Clean(s + [x], id)
  {
    var t := s + [x];
    assert t[|s|] == x;
    CleanKeepsFirst(t, id);
    var c := Clean(t, id);
    var ids := Map(c, id);
    var k :| 0 <= k < |ids| && ids[k] == id(x);
    SubsequenceMembers(c, t);
    assert c[k] in t;
    assert c[k] !in s;
  }

  /** Cleaning a clean list changes nothing. */
  lemma CleanIdempotent<T>(s: seq<T>, id: T -> string)
    ensures Clean(Clean(s, id), id) == Clean(s, id)
  {
    var c := Clean(s, id);
    FilterAll(c, x => id(x) != "");
    DistinctByIdempotent(WithId(s, id), id);
  }

  // ---------------------------------------------------------------------
  // Add, replace, remove

  predicate HasId<T>(s: seq<T>, id: T -> string, k: string) {
    exists i :: 0 <= i < |s| && id(s[i]) == k
  }

  /** Appends `x` unless an element with its id is already there. */
  function AddIfAbsent<T>(s: seq<T>, x: T, id: T -> string): (r: seq<T>)
    ensures HasId(r, id, id(x))
    ensures |s| <= |r| <= |s| + 1 && r[..|s|] == s
    ensures KeysUnique(s, id) ==> KeysUnique(r, id)
  {
    if HasId(s, id, id(x)) then s
    else
      var r := s + [x];
      assert id(r[|s|]) == id(x);
      r
  }

  /** Adding is idempotent, and adding what is already there is a no-op. */
  lemma AddIfAbsentIdempotent<T>(s: seq<T>, x: T, id: T -> string)
    ensures AddIfAbsent(AddIfAbsent(s, x, id), x, id) == AddIfAbsent(s, x, id)
    ensures HasId(s, id, id(x)) ==> AddIfAbsent(s, x, id) == s
    ensures !HasId(s, id, id(x)) ==> AddIfAbsent(s, x, id) == s + [x]
  {
  }

  /** Every element with `x`'s id becomes `x`; the others stay. */
  function ReplaceById<T>(s: seq<T>, x: T, id: T -> string): (r: seq<T>)
    ensures |r| == |s|
    ensures forall i :: 0 <= i < |s| ==> id(r[i]) == id(s[i])
    ensures forall i :: 0 <= i < |s| && id(s[i]) != id(x) ==> r[i] == s[i]
    ensures forall i :: 0 <= i < |s| && id(s[i]) == id(x) ==> r[i] == x
  {
    Map(s, y => if id(y) == id(x) then x else y)
  }

  /** Replacing an id that is absent is a no-op; replacing keeps ids
      unique; replacing twice is replacing once. */
  lemma ReplaceByIdFacts<T>(s: seq<T>, x: T, id: T -> string)
    ensures !HasId(s, id, id(x)) ==> ReplaceById(s, x, id) == s
    ensures KeysUnique(s, id) ==> KeysUnique(ReplaceById(s, x, id), id)
    ensures ReplaceById(ReplaceById(s, x, id), x, id) == ReplaceById(s, x, id)
  {
  }

  /** Drops every element whose id is `k`, keeping the rest in order. */
  function RemoveById<T>(s: seq<T>, k: string, id: T -> string): (r: seq<T>)
    ensures !HasId(r, id, k)
    ensures IsSubsequence(r, s)
    ensures forall i :: 0 <= i < |s| && id(s[i]) != k ==> s[i] in r
  {
    var r := Filter(s, y => id(y) != k);
    FilterIsSubsequence(s, y => id(y) != k);
    forall i | 0 <= i < |s| && id(s[i]) != k
      ensures s[i] in r
    {
      FilterCount(s, y => id(y) != k, s[i]);
      assert s[i] in multiset(s);
      assert s[i] in multiset(r);
    }
    r
  }

  /** Removing counts copies exactly: each element with another id is kept
      as often as it occurs. */
  lemma RemoveByIdCount<T>(s: seq<T>, k: string, id: T -> string, y: T)
    ensures multiset(RemoveById(s, k, id))[y] == if id(y) == k then 0 else multiset(s)[y]
  {
    FilterCount(s, z => id(z) != k, y);
  }

  /** Removing after adding is removing: the add leaves no trace. */
  lemma RemoveAfterAdd<T>(s: seq<T>, x: T, id: T -> string)
    ensures RemoveById(AddIfAbsent(s, x, id), id(x), id) == RemoveById(s, id(x), id)
  {
    if !HasId(s, id, id(x)) {
      FilterAppend(s, [x], y => id(y) != id(x));
      assert Filter([x], y => id(y) != id(x)) == [];
    }
  }
}
