/** `order_by(<field>)` over in-memory rows: an insertion sort on an
  * integer key, proved sorted and a permutation of its input. */
module Sorting {
  import opened Common

  predicate SortedBy<T>(s: seq<T>, key: T -> int) {
    forall i, j :: 0 <= i < j < |s| ==> key(s[i]) <= key(s[j])
  }

  /** Places `x` in front of the first element with a greater or equal key. */
  function Insert<T>(x: T, s: seq<T>, key: T -> int): (r: seq<T>)
    ensures multiset(r) == multiset(s) + multiset{x}
    ensures |r| == |s| + 1
  {
    if s == [] then [x]
    else if key(x) <= key(s[0]) then [x] + s
    else
      assert s == [s[0]] + s[1..];
      [s[0]] + Insert(x, s[1..], key)
  }

  /** Inserting into a sorted sequence keeps it sorted, and every key of the
    * result is at least the smaller of `x`'s key and the old head's key. */
  lemma {:induction false} InsertSorted<T>(x: T, s: seq<T>, key: T -> int)
    requires SortedBy(s, key)
    ensures SortedBy(Insert(x, s, key), key)
    ensures |s| > 0 ==> forall k :: 0 <= k < |s| + 1 ==> key(Insert(x, s, key)[k]) >= Min(key(x), key(s[0]))
  {
    var r := Insert(x, s, key);
    if s == [] {
    } else if key(x) <= key(s[0]) {
      assert r == [x] + s;
      forall i, j | 0 <= i < j < |r|
        ensures key(r[i]) <= key(r[j])
      {
        assert r[j] == s[j - 1];
        if i > 0 {
          assert r[i] == s[i - 1];
        }
      }
      forall k | 0 <= k < |r|
        ensures key(r[k]) >= key(x)
      {
        if k > 0 {
          assert r[k] == s[k - 1];
        }
      }
    } else {
      var tail := s[1..];
      InsertSorted(x, tail, key);
      var rest := Insert(x, tail, key);
      assert r == [s[0]] + rest;
      forall k | 0 <= k < |rest|
        ensures key(s[0]) <= key(rest[k])
      {
        if tail != [] {
          assert key(s[0]) <= key(tail[0]);
        }
      }
      forall i, j | 0 <= i < j < |r|
        ensures key(r[i]) <= key(r[j])
      {
        assert r[j] == rest[j - 1];
        if i > 0 {
          assert r[i] == rest[i - 1];
        }
      }
      forall k | 0 <= k < |r|
        ensures key(r[k]) >= key(s[0])
      {
        if k > 0 {
          assert r[k] == rest[k - 1];
        }
      }
    }
  }

  /** The rows of `s` in ascending `key` order. */
  function SortBy<T>(s: seq<T>, key: T -> int): (r: seq<T>)
    ensures SortedBy(r, key)
    ensures multiset(r) == multiset(s)
    ensures |r| == |s|
  {
    if s == [] then []
    else
      assert s == [s[0]] + s[1..];
      InsertSorted(s[0], SortBy(s[1..], key), key);
      Insert(s[0], SortBy(s[1..], key), key)
  }

  /** Sorting keeps exactly the elements of its input. */
  lemma {:induction false} SortByMembers<T>(s: seq<T>, key: T -> int, x: T)
    ensures x in SortBy(s, key) <==> x in s
  {
    assert x in SortBy(s, key) <==> x in multiset(SortBy(s, key));
  }

  ghost predicate Distinct<T>(s: seq<T>) {
    forall i, j :: 0 <= i < j < |s| ==> s[i] != s[j]
  }

  lemma {:induction false} DistinctOccursOnce<T>(s: seq<T>, x: T)
    requires Distinct(s)
    ensures multiset(s)[x] <= 1
  {
    if s != [] {
      assert s == [s[0]] + s[1..];
      DistinctOccursOnce(s[1..], x);
      if x == s[0] {
        assert x !in s[1..];
      }
    }
  }

  /** A reordering of a sequence without repetitions has none either. */
  lemma {:induction false} PermutationKeepsDistinct<T>(s: seq<T>, r: seq<T>)
    requires Distinct(s) && multiset(r) == multiset(s)
    ensures Distinct(r)
  {
    forall i, j | 0 <= i < j < |r|
      ensures r[i] != r[j]
    {
      if r[i] == r[j] {
        var x := r[i];
        assert r == r[..j] + [r[j]] + r[j + 1..];
        assert r[..j][i] == x;
        assert multiset(r[..j])[x] >= 1;
        assert multiset(r)[x] >= 2;
        DistinctOccursOnce(s, x);
        assert false;
      }
    }
  }

  /** Keeping some elements of a sequence without repetitions keeps it so. */
  lemma {:induction false} FilterKeepsDistinct<T>(s: seq<T>, p: T -> bool)
    requires Distinct(s)
    ensures Distinct(Filter(s, p))
  {
    if s != [] {
      FilterKeepsDistinct(s[1..], p);
      if p(s[0]) {
        var rest := Filter(s[1..], p);
        assert s[0] !in s[1..];
        assert s[0] !in rest;
        assert Filter(s, p) == [s[0]] + rest;
      }
    }
  }

  function AtIndex<T>(rows: seq<T>, p: T -> bool): int -> bool {
    i => 0 <= i < |rows| && p(rows[i])
  }

  function KeyAt<T>(rows: seq<T>, key: T -> int): int -> int {
    i => if 0 <= i < |rows| then key(rows[i]) else 0
  }

  /** `filter(p).order_by(key)` over a table whose row ids are positions:
    * the ids of exactly the rows satisfying `p`, each once, in ascending
    * `key` order. */
  function Query<T>(rows: seq<T>, p: T -> bool, key: T -> int): (r: seq<int>)
    ensures forall k :: 0 <= k < |r| ==> 0 <= r[k] < |rows| && p(rows[r[k]])
    ensures forall i :: 0 <= i < |rows| && p(rows[i]) ==> i in r
    ensures forall j, k :: 0 <= j < k < |r| ==> key(rows[r[j]]) <= key(rows[r[k]])
    ensures Distinct(r)
  {
    QueryFacts(rows, p, key);
    SortBy(Filter(Ids(|rows|), AtIndex(rows, p)), KeyAt(rows, key))
  }

  lemma {:induction false} QueryFacts<T>(rows: seq<T>, p: T -> bool, key: T -> int)
    ensures var r := SortBy(Filter(Ids(|rows|), AtIndex(rows, p)), KeyAt(rows, key));
      (forall k :: 0 <= k < |r| ==> 0 <= r[k] < |rows| && p(rows[r[k]]))
      && (forall i :: 0 <= i < |rows| && p(rows[i]) ==> i in r)
      && (forall j, k :: 0 <= j < k < |r| ==> key(rows[r[j]]) <= key(rows[r[k]]))
      && Distinct(r)
  {
    var ids := Ids(|rows|);
    var q := AtIndex(rows, p);
    var kf := KeyAt(rows, key);
    var hits := Filter(ids, q);
    FilterKeepsDistinct(ids, q);
    var sorted := SortBy(hits, kf);
    PermutationKeepsDistinct(hits, sorted);
    forall k | 0 <= k < |sorted|
      ensures 0 <= sorted[k] < |rows| && p(rows[sorted[k]])
    {
      SortByMembers(hits, kf, sorted[k]);
    }
    forall i | 0 <= i < |rows| && p(rows[i])
      ensures i in sorted
    {
      assert ids[i] == i;
      SortByMembers(hits, kf, i);
    }
    forall j, k | 0 <= j < k < |sorted|
      ensures key(rows[sorted[j]]) <= key(rows[sorted[k]])
    {
      assert kf(sorted[j]) <= kf(sorted[k]);
    }
  }

  /** Counting the rows that satisfy `p` counts the ids a query returns:
    * `.count()` agrees with the length of the filtered list. */
  lemma {:induction false} QueryCount<T>(rows: seq<T>, p: T -> bool, key: T -> int)
    ensures |Query(rows, p, key)| == Count(rows, p)
  {
    var hits := Filter(Ids(|rows|), AtIndex(rows, p));
    CountIsFilterLength(Ids(|rows|), AtIndex(rows, p));
    IdsCount(rows, p, |rows|);
    assert rows[..|rows|] == rows;
  }

  lemma {:induction false} IdsCount<T>(rows: seq<T>, p: T -> bool, n: nat)
    requires n <= |rows|
    ensures Count(Ids(n), AtIndex(rows, p)) == Count(rows[..n], p)
  {
    if n > 0 {
      IdsCount(rows, p, n - 1);
      CountSnoc(Ids(n - 1), n - 1, AtIndex(rows, p));
      assert rows[..n] == rows[..n - 1] + [rows[n - 1]];
      CountSnoc(rows[..n - 1], rows[n - 1], p);
    }
  }

  /** `filter(p)` on a table without an `ordering`: the ids of exactly the
    * rows satisfying `p`, in primary-key order. */
  function Matching<T>(rows: seq<T>, p: T -> bool): (r: seq<int>)
    ensures forall k :: 0 <= k < |r| ==> 0 <= r[k] < |rows| && p(rows[r[k]])
    ensures forall i :: 0 <= i < |rows| && p(rows[i]) ==> i in r
    ensures forall j, k :: 0 <= j < k < |r| ==> r[j] < r[k]
    ensures |r| == Count(rows, p)
  {
    if rows == [] then []
    else
      var front := rows[..|rows| - 1];
      var x := rows[|rows| - 1];
      assert rows == front + [x];
      CountSnoc(front, x, p);
      Matching(front, p) + (if p(x) then [|rows| - 1] else [])
  }

  /** One more row: its id joins the list when it satisfies `p`. */
  lemma {:induction false} MatchingSnoc<T>(rows: seq<T>, p: T -> bool)
    requires rows != []
    ensures Matching(rows, p) == Matching(rows[..|rows| - 1], p) + (if p(rows[|rows| - 1]) then [|rows| - 1] else [])
  {
  }
}
