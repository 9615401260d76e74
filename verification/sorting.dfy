/**
 * Stable insertion sort over an arbitrary total preorder, and the small sequence
 * helpers (take, drop, reverse, filter-count) that the repository queries and the
 * services are built from. `before(a, b)` means "a may be listed before b".
 */
module Sorting {

  ghost predicate TotalPreorder<T(!new)>(before: (T, T) -> bool) {
    && (forall a, b :: before(a, b) || before(b, a))
    && (forall a, b, c :: before(a, b) && before(b, c) ==> before(a, c))
  }

  predicate SortedBy<T>(s: seq<T>, before: (T, T) -> bool) {
    forall i, j :: 0 <= i < j < |s| ==> before(s[i], s[j])
  }

  /** Places `x` after every element it does not strictly precede, so equal keys keep input order. */
  function Insert<T(!new)>(x: T, s: seq<T>, before: (T, T) -> bool): (r: seq<T>)
    ensures |r| == |s| + 1
    ensures multiset(r) == multiset(s) + multiset{x}
    ensures forall y :: y in r <==> y == x || y in s
    decreases |s|
  {
    if |s| == 0 then [x]
    else if before(s[0], x) then
      assert s == [s[0]] + s[1..];
      [s[0]] + Insert(x, s[1..], before)
    else
      [x] + s
  }

  lemma {:induction false} InsertSorted<T(!new)>(x: T, s: seq<T>, before: (T, T) -> bool)
    requires TotalPreorder(before)
    requires SortedBy(s, before)
    ensures SortedBy(Insert(x, s, before), before)
    decreases |s|
  {
    if |s| == 0 {
    } else if before(s[0], x) {
      InsertSorted(x, s[1..], before);
      var rest := Insert(x, s[1..], before);
      assert Insert(x, s, before) == [s[0]] + rest;
      forall k | 0 <= k < |rest| ensures before(s[0], rest[k]) {
        assert rest[k] in rest;
      }
    } else {
      assert before(x, s[0]);
    }
  }

  /** Stable sort: the last element is inserted into the sorted prefix. */
  function Sort<T(!new)>(s: seq<T>, before: (T, T) -> bool): (r: seq<T>)
    requires TotalPreorder(before)
    ensures multiset(r) == multiset(s)
    ensures |r| == |s|
    ensures SortedBy(r, before)
    decreases |s|
  {
    if |s| == 0 then []
    else
      var init := Sort(s[..|s| - 1], before);
      InsertSorted(s[|s| - 1], init, before);
      assert s == s[..|s| - 1] + [s[|s| - 1]];
      Insert(s[|s| - 1], init, before)
  }

  /** An element that every listed element may precede is placed last. */
  lemma {:induction false} InsertAtEnd<T(!new)>(x: T, s: seq<T>, before: (T, T) -> bool)
    requires forall y :: y in s ==> before(y, x)
    ensures Insert(x, s, before) == s + [x]
    decreases |s|
  {
    if |s| > 0 {
      assert s[0] in s;
      assert s == [s[0]] + s[1..];
      InsertAtEnd(x, s[1..], before);
    }
  }

  /** Appending an element that every element of a sorted-in-place list may precede keeps the list in place. */
  lemma SortSnocInOrder<T(!new)>(s: seq<T>, x: T, before: (T, T) -> bool)
    requires TotalPreorder(before)
    requires Sort(s, before) == s
    requires forall y :: y in s ==> before(y, x)
    ensures Sort(s + [x], before) == s + [x]
  {
    assert (s + [x])[..|s|] == s;
    InsertAtEnd(x, s, before);
  }

  function Reverse<T>(s: seq<T>): (r: seq<T>)
    ensures |r| == |s|
    ensures forall i :: 0 <= i < |s| ==> r[i] == s[|s| - 1 - i]
    ensures multiset(r) == multiset(s)
    decreases |s|
  {
    if |s| == 0 then []
    else
      assert s == s[..|s| - 1] + [s[|s| - 1]];
      [s[|s| - 1]] + Reverse(s[..|s| - 1])
  }

  /** SQL `LIMIT n` / Python `s[:n]`. */
  function Take<T>(s: seq<T>, n: nat): (r: seq<T>)
    ensures |r| == if n < |s| then n else |s|
    ensures r == s[..|r|]
  {
    if n < |s| then s[..n] else s
  }

  /** SQL `OFFSET n` / Python `s[n:]`. */
  function Drop<T>(s: seq<T>, n: nat): (r: seq<T>)
    ensures |r| == if n < |s| then |s| - n else 0
    ensures r == s[|s| - |r|..]
  {
    if n < |s| then s[n..] else []
  }

  /** Number of elements satisfying `p`. */
  function CountIf<T>(s: seq<T>, p: T -> bool): (c: nat)
    ensures c <= |s|
    decreases |s|
  {
    if |s| == 0 then 0
    else CountIf(s[..|s| - 1], p) + (if p(s[|s| - 1]) then 1 else 0)
  }

  /** The elements satisfying `p`, in order. */
  function FilterBy<T(!new)>(s: seq<T>, p: T -> bool): (r: seq<T>)
    ensures |r| == CountIf(s, p)
    ensures forall x :: x in r <==> x in s && p(x)
    ensures multiset(r) <= multiset(s)
    decreases |s|
  {
    if |s| == 0 then []
    else
      var init := FilterBy(s[..|s| - 1], p);
      assert s == s[..|s| - 1] + [s[|s| - 1]];
      if p(s[|s| - 1]) then init + [s[|s| - 1]] else init
  }

  /** The positions of `s` whose element satisfies `p`. */
  function Positions<T>(s: seq<T>, p: T -> bool): set<int> {
    set i | 0 <= i < |s| && p(s[i])
  }

  /** `CountIf` agrees with the cardinality of the set of matching positions. */
  lemma {:induction false} CountIfIsCardinality<T>(s: seq<T>, p: T -> bool)
    ensures CountIf(s, p) == |Positions(s, p)|
    decreases |s|
  {
    if |s| == 0 {
      assert Positions(s, p) == {};
    } else {
      var n := |s| - 1;
      CountIfIsCardinality(s[..n], p);
      var before := Positions(s[..n], p);
      var all := Positions(s, p);
      assert before == set i | 0 <= i < n && p(s[i]);
      if p(s[n]) {
        assert all == before + {n};
        assert n !in before;
      } else {
        assert all == before;
      }
    }
  }

  /** A subset is no larger than its superset. */
  lemma SubsetSize<T>(a: set<T>, b: set<T>)
    requires a <= b
    ensures |a| <= |b|
  {
    assert b == a + (b - a);
    assert a * (b - a) == {};
  }

  /** Counting over a concatenation adds up. */
  lemma {:induction false} CountIfAppend<T>(a: seq<T>, b: seq<T>, p: T -> bool)
    ensures CountIf(a + b, p) == CountIf(a, p) + CountIf(b, p)
    decreases |b|
  {
    if |b| == 0 {
      assert a + b == a;
    } else {
      var b' := b[..|b| - 1];
      assert (a + b)[..|a + b| - 1] == a + b';
      CountIfAppend(a, b', p);
    }
  }

  lemma TakeDropSplit<T>(s: seq<T>, n: nat)
    ensures s == Take(s, n) + Drop(s, n)
  {
  }

  lemma {:induction false} ReverseOfSortedDescends<T>(s: seq<T>, before: (T, T) -> bool)
    requires SortedBy(s, before)
    ensures forall i, j :: 0 <= i < j < |Reverse(s)| ==> before(Reverse(s)[j], Reverse(s)[i])
  {
    var r := Reverse(s);
    forall i, j | 0 <= i < j < |r| ensures before(r[j], r[i]) {
      assert r[i] == s[|s| - 1 - i] && r[j] == s[|s| - 1 - j];
    }
  }

  lemma {:induction false} DroppedFollowTaken<T>(s: seq<T>, n: nat, before: (T, T) -> bool)
    requires SortedBy(s, before)
    ensures forall x, y :: x in Drop(s, n) && y in Take(s, n) ==> before(y, x)
  {
    var top := Take(s, n);
    var rest := Drop(s, n);
    TakeDropSplit(s, n);
    forall x, y | x in rest && y in top ensures before(y, x) {
      var i :| 0 <= i < |rest| && rest[i] == x;
      var j :| 0 <= j < |top| && top[j] == y;
      assert s[j] == y && s[|top| + i] == x;
    }
  }

  /** The first `n` elements of a list sorted by `before`, reversed: at most `n`, drawn from `s`, sorted the other way. */
  lemma {:induction false} ReversedTopFacts<T>(s: seq<T>, n: nat, before: (T, T) -> bool)
    requires SortedBy(s, before)
    ensures var r := Reverse(Take(s, n));
            && multiset(r) + multiset(Drop(s, n)) == multiset(s)
            && (forall x :: x in r ==> x in s)
            && (forall i, j :: 0 <= i < j < |r| ==> before(r[j], r[i]))
            && (forall x, y :: x in Drop(s, n) && y in r ==> before(y, x))
  {
    var top := Take(s, n);
    var r := Reverse(top);
    TakeDropSplit(s, n);
    assert SortedBy(top, before);
    ReverseOfSortedDescends(top, before);
    DroppedFollowTaken(s, n, before);
    forall x | x in r ensures x in s && x in top {
      assert x in multiset(r);
    }
  }

  /** A window `Take(Drop(s, skip), limit)` of a sorted list is drawn from it and stays sorted. */
  lemma {:induction false} WindowFacts<T>(s: seq<T>, skip: nat, limit: nat, before: (T, T) -> bool)
    requires SortedBy(s, before)
    ensures var r := Take(Drop(s, skip), limit);
            && (forall x :: x in r ==> x in s)
            && SortedBy(r, before)
  {
    var d := Drop(s, skip);
    var r := Take(d, limit);
    var off := |s| - |d|;
    forall i | 0 <= i < |r| ensures r[i] == s[off + i] {
    }
  }

  // `SortedBy(s, ok)` says that `ok` holds of every ordered pair of positions, so it also
  // states pairwise facts such as distinct keys; the lemmas below use it that way.

  /** Filtering keeps every pairwise relation the input had. */
  lemma {:induction false} FilterKeepsSortedBy<T(!new)>(s: seq<T>, p: T -> bool, ok: (T, T) -> bool)
    requires SortedBy(s, ok)
    ensures SortedBy(FilterBy(s, p), ok)
    decreases |s|
  {
    if |s| > 0 {
      var n := |s| - 1;
      var init := s[..n];
      assert SortedBy(init, ok) by {
        forall i, j | 0 <= i < j < |init| ensures ok(init[i], init[j]) {
          assert init[i] == s[i] && init[j] == s[j];
        }
      }
      FilterKeepsSortedBy(init, p, ok);
      var r := FilterBy(init, p);
      if p(s[n]) {
        var all := r + [s[n]];
        forall i, j | 0 <= i < j < |all| ensures ok(all[i], all[j]) {
          if j == |r| {
            assert all[i] in init;
            var k :| 0 <= k < n && init[k] == all[i];
            assert ok(s[k], s[n]);
          } else {
            assert all[i] == r[i] && all[j] == r[j];
          }
        }
      }
    }
  }

  /** Inserting an element related both ways to every element keeps a pairwise relation. */
  lemma {:induction false} InsertKeepsSortedBy<T(!new)>(x: T, s: seq<T>, before: (T, T) -> bool, ok: (T, T) -> bool)
    requires SortedBy(s, ok)
    requires forall y :: y in s ==> ok(x, y) && ok(y, x)
    ensures SortedBy(Insert(x, s, before), ok)
    decreases |s|
  {
    if |s| > 0 {
      if before(s[0], x) {
        var tail := s[1..];
        assert SortedBy(tail, ok) by {
          forall i, j | 0 <= i < j < |tail| ensures ok(tail[i], tail[j]) {
            assert tail[i] == s[i + 1] && tail[j] == s[j + 1];
          }
        }
        InsertKeepsSortedBy(x, tail, before, ok);
        var rest := Insert(x, tail, before);
        var all := [s[0]] + rest;
        forall i, j | 0 <= i < j < |all| ensures ok(all[i], all[j]) {
          if i == 0 {
            assert all[j] == rest[j - 1] && rest[j - 1] in rest;
            if all[j] != x {
              var k :| 0 <= k < |tail| && tail[k] == all[j];
              assert ok(s[0], s[k + 1]);
            }
          } else {
            assert all[i] == rest[i - 1] && all[j] == rest[j - 1];
          }
        }
      } else {
        var all := [x] + s;
        forall i, j | 0 <= i < j < |all| ensures ok(all[i], all[j]) {
          if i > 0 {
            assert all[i] == s[i - 1] && all[j] == s[j - 1];
          } else {
            assert all[j] == s[j - 1];
          }
        }
      }
    }
  }

  /** Sorting keeps every symmetric pairwise relation the input had. */
  lemma {:induction false} SortKeepsSortedBy<T(!new)>(s: seq<T>, before: (T, T) -> bool, ok: (T, T) -> bool)
    requires TotalPreorder(before)
    requires SortedBy(s, ok)
    requires forall a, b :: ok(a, b) ==> ok(b, a)
    ensures SortedBy(Sort(s, before), ok)
    decreases |s|
  {
    if |s| > 0 {
      var n := |s| - 1;
      var init := s[..n];
      assert SortedBy(init, ok) by {
        forall i, j | 0 <= i < j < |init| ensures ok(init[i], init[j]) {
          assert init[i] == s[i] && init[j] == s[j];
        }
      }
      SortKeepsSortedBy(init, before, ok);
      var sorted := Sort(init, before);
      forall y | y in sorted ensures ok(s[n], y) && ok(y, s[n]) {
        assert y in multiset(sorted);
        assert y in init;
        var k :| 0 <= k < n && init[k] == y;
        assert ok(s[k], s[n]);
      }
      InsertKeepsSortedBy(s[n], sorted, before, ok);
    }
  }

  /** Every element either satisfies `p` or does not. */
  lemma {:induction false} CountIfComplement<T>(s: seq<T>, p: T -> bool, q: T -> bool)
    requires forall x :: q(x) <==> !p(x)
    ensures CountIf(s, p) + CountIf(s, q) == |s|
    decreases |s|
  {
    if |s| > 0 {
      CountIfComplement(s[..|s| - 1], p, q);
    }
  }

  /** Nothing is counted exactly when nothing satisfies `p`. */
  lemma {:induction false} CountIfZero<T>(s: seq<T>, p: T -> bool)
    ensures CountIf(s, p) == 0 <==> forall i :: 0 <= i < |s| ==> !p(s[i])
    decreases |s|
  {
    if |s| > 0 {
      var n := |s| - 1;
      CountIfZero(s[..n], p);
      if CountIf(s, p) == 0 {
        forall i | 0 <= i < |s| ensures !p(s[i]) {
          if i < n { assert s[i] == s[..n][i]; }
        }
      } else if !p(s[n]) {
        var i :| 0 <= i < n && p(s[..n][i]);
        assert s[i] == s[..n][i];
      }
    }
  }

  /** Counting `q` among the elements that satisfy `p` counts their conjunction. */
  lemma {:induction false} CountIfFilter<T(!new)>(s: seq<T>, p: T -> bool, q: T -> bool, pq: T -> bool)
    requires forall x :: pq(x) <==> p(x) && q(x)
    ensures CountIf(FilterBy(s, p), q) == CountIf(s, pq)
    decreases |s|
  {
    if |s| > 0 {
      var n := |s| - 1;
      CountIfFilter(s[..n], p, q, pq);
      var r := FilterBy(s[..n], p);
      if p(s[n]) {
        assert (r + [s[n]])[..|r|] == r;
      }
    }
  }

  /** Appending elements that all fail `p` does not change the filtered list. */
  lemma {:induction false} FilterAppendRejected<T(!new)>(s: seq<T>, extra: seq<T>, p: T -> bool)
    requires forall x :: x in extra ==> !p(x)
    ensures FilterBy(s + extra, p) == FilterBy(s, p)
    decreases |extra|
  {
    if |extra| == 0 {
      assert s + extra == s;
    } else {
      var n := |extra| - 1;
      assert (s + extra)[..|s + extra| - 1] == s + extra[..n];
      assert extra[n] in extra;
      FilterAppendRejected(s, extra[..n], p);
    }
  }
}
