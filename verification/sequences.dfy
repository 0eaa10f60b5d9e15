/** Filtering and sorting of sequences. The stable insertion sort by an
    integer key stands for every ordering the application asks of its lists:
    JavaScript's `Array.prototype.sort` with a numeric comparator (kicks by
    ordinal, exports by start time) and the store's index order (sessions by
    creation time). */
module Sequences {

  /** The elements of `s` that satisfy `p`, in their original order. */
  function Filter<T>(s: seq<T>, p: T -> bool): (r: seq<T>)
    ensures forall i :: 0 <= i < |r| ==> r[i] in s && p(r[i])
    ensures multiset(r) <= multiset(s)
  {
    if |s| == 0 then []
    else
      assert s == [s[0]] + s[1..];
      if p(s[0]) then [s[0]] + Filter(s[1..], p)
      else Filter(s[1..], p)
  }

  /** Every element that satisfies `p` survives the filter. */
  lemma {:induction false} FilterKeeps<T>(s: seq<T>, p: T -> bool)
    ensures forall i :: 0 <= i < |s| && p(s[i]) ==> s[i] in Filter(s, p)
    decreases |s|
  {
    if |s| > 0 {
      var tail := s[1..];
      FilterKeeps(tail, p);
      forall i | 0 <= i < |s| && p(s[i])
        ensures s[i] in Filter(s, p)
      {
        if i > 0 {
          assert s[i] == tail[i - 1];
        }
      }
    }
  }

  /** Filtering distributes over concatenation. */
  /** A filter keeps every copy of an element that passes and none of one
      that fails. */
  lemma {:induction false} FilterMultiplicity<T>(s: seq<T>, p: T -> bool, x: T)
    ensures p(x) ==> multiset(Filter(s, p))[x] == multiset(s)[x]
    ensures !p(x) ==> multiset(Filter(s, p))[x] == 0
    decreases |s|
  {
    if |s| > 0 {
      FilterMultiplicity(s[1..], p, x);
      assert s == [s[0]] + s[1..];
    }
  }

  lemma {:induction false} FilterAppend<T>(a: seq<T>, b: seq<T>, p: T -> bool)
    ensures Filter(a + b, p) == Filter(a, p) + Filter(b, p)
    decreases |a|
  {
    if |a| > 0 {
      assert (a + b)[0] == a[0];
      assert (a + b)[1..] == a[1..] + b;
      FilterAppend(a[1..], b, p);
    } else {
      assert a + b == b;
    }
  }

  /** A filter that keeps everything is the identity. */
  lemma {:induction false} FilterAll<T>(s: seq<T>, p: T -> bool)
    requires forall i :: 0 <= i < |s| ==> p(s[i])
    ensures Filter(s, p) == s
    decreases |s|
  {
    if |s| > 0 {
      FilterAll(s[1..], p);
    }
  }

  /** Keys never decrease along `s`. */
  predicate SortedBy<T>(s: seq<T>, key: T -> int) {
    forall i, j :: 0 <= i < j < |s| ==> key(s[i]) <= key(s[j])
  }

  /** Keys strictly increase along `s`. */
  predicate StrictlySortedBy<T>(s: seq<T>, key: T -> int) {
    forall i, j :: 0 <= i < j < |s| ==> key(s[i]) < key(s[j])
  }

  /** Filtering by `q` after `p` is filtering by `q` alone when `q` implies `p`. */
  lemma {:induction false} FilterFilter<T>(s: seq<T>, p: T -> bool, q: T -> bool)
    requires forall i :: 0 <= i < |s| && q(s[i]) ==> p(s[i])
    ensures Filter(Filter(s, p), q) == Filter(s, q)
    decreases |s|
  {
    if |s| > 0 {
      FilterFilter(s[1..], p, q);
    }
  }

  /** Nothing survives a filter that no element satisfies. */
  lemma {:induction false} FilterNone<T>(s: seq<T>, q: T -> bool)
    requires forall i :: 0 <= i < |s| ==> !q(s[i])
    ensures Filter(s, q) == []
    decreases |s|
  {
    if |s| > 0 {
      FilterNone(s[1..], q);
    }
  }

  /** A filter and its complement split the elements between them. */
  lemma {:induction false} FilterPartition<T>(s: seq<T>, p: T -> bool, q: T -> bool)
    requires forall i :: 0 <= i < |s| ==> p(s[i]) != q(s[i])
    ensures multiset(Filter(s, p)) + multiset(Filter(s, q)) == multiset(s)
    decreases |s|
  {
    if |s| > 0 {
      assert s == [s[0]] + s[1..];
      FilterPartition(s[1..], p, q);
    }
  }

  /** Two filters commute. */
  lemma {:induction false} FilterCommute<T>(s: seq<T>, p: T -> bool, q: T -> bool)
    ensures Filter(Filter(s, p), q) == Filter(Filter(s, q), p)
    decreases |s|
  {
    if |s| > 0 {
      FilterCommute(s[1..], p, q);
    }
  }

  /** A filter that drops exactly the copies of `x` removes all of them and
      nothing else. */
  lemma {:induction false} FilterDropsAll<T>(s: seq<T>, x: T, p: T -> bool)
    requires forall i :: 0 <= i < |s| ==> (p(s[i]) <==> s[i] != x)
    ensures multiset(Filter(s, p)) == multiset(s)[x := 0]
    decreases |s|
  {
    if |s| > 0 {
      assert s == [s[0]] + s[1..];
      FilterDropsAll(s[1..], x, p);
    }
  }

  /** Inserts `x` into the sorted `s` after every element whose key is not
      larger than its own, which keeps the sort stable. */
  function Insert<T>(s: seq<T>, x: T, key: T -> int): (r: seq<T>)
    requires SortedBy(s, key)
    ensures multiset(r) == multiset(s) + multiset{x}
    ensures SortedBy(r, key)
    ensures |r| == |s| + 1
  {
    if |s| == 0 then [x]
    else if key(s[|s| - 1]) <= key(x) then s + [x]
    else
      var init, last := s[..|s| - 1], s[|s| - 1];
      assert s == init + [last];
      var front := Insert(init, x, key);
      InsertBelow(init, x, key, front, last);
      front + [last]
  }

  /** Every element of `front`, the insertion of `x` into `init`, has a key
      at most that of `last` when `init + [last]` is sorted and `x` is below it. */
  lemma InsertBelow<T>(init: seq<T>, x: T, key: T -> int, front: seq<T>, last: T)
    requires SortedBy(init + [last], key)
    requires key(x) < key(last)
    requires multiset(front) == multiset(init) + multiset{x}
    requires SortedBy(front, key)
    ensures SortedBy(front + [last], key)
  {
    var r := front + [last];
    forall i, j | 0 <= i < j < |r|
      ensures key(r[i]) <= key(r[j])
    {
      if j == |r| - 1 {
        assert r[i] == front[i] && r[j] == last;
        assert front[i] in multiset(front);
        if front[i] != x {
          assert front[i] in multiset(init);
          var k :| 0 <= k < |init| && init[k] == front[i];
          assert (init + [last])[k] == init[k];
          assert (init + [last])[|init|] == last;
        }
      } else {
        assert r[i] == front[i] && r[j] == front[j];
      }
    }
  }

  /** Sorts `s` by `key`, keeping equal keys in their original order. */
  function SortBy<T>(s: seq<T>, key: T -> int): (r: seq<T>)
    ensures multiset(r) == multiset(s)
    ensures SortedBy(r, key)
    ensures |r| == |s|
  {
    if |s| == 0 then []
    else
      var init := s[..|s| - 1];
      assert s == init + [s[|s| - 1]];
      Insert(SortBy(init, key), s[|s| - 1], key)
  }

  /** Sorting neither adds nor loses elements. */
  lemma SortByMembers<T>(s: seq<T>, key: T -> int)
    ensures forall i :: 0 <= i < |s| ==> s[i] in SortBy(s, key)
    ensures forall i :: 0 <= i < |s| ==> SortBy(s, key)[i] in s
  {
    var r := SortBy(s, key);
    forall i | 0 <= i < |s|
      ensures s[i] in r && r[i] in s
    {
      assert s[i] in multiset(s);
      assert r[i] in multiset(r);
    }
  }

  /** Appending an element whose key is at least every other key leaves the
      sorted prefix in place and puts the new element last. */
  lemma {:induction false} SortAppendMax<T>(s: seq<T>, x: T, key: T -> int)
    requires forall y :: y in s ==> key(y) <= key(x)
    ensures SortBy(s + [x], key) == SortBy(s, key) + [x]
  {
    var t := s + [x];
    assert t[..|t| - 1] == s;
    var sorted := SortBy(s, key);
    if |sorted| > 0 {
      assert sorted[|sorted| - 1] in multiset(s);
    }
  }

  /** A sorted arrangement of the elements of a strictly sorted sequence is
      that sequence: with distinct keys the order is determined. */
  lemma {:induction false} StrictlySortedUnique<T>(a: seq<T>, b: seq<T>, key: T -> int)
    requires StrictlySortedBy(a, key) && SortedBy(b, key)
    requires multiset(a) == multiset(b)
    ensures a == b
    decreases |a|
  {
    if |a| == 0 {
      assert |multiset(b)| == 0;
    } else {
      assert |b| != 0 by {
        assert a[0] in multiset(b);
      }
      SameLast(a, b, key);
      DropLast(a, b);
      var a', b' := a[..|a| - 1], b[..|b| - 1];
      assert StrictlySortedBy(a', key);
      assert SortedBy(b', key);
      StrictlySortedUnique(a', b', key);
      assert a == a' + [a[|a| - 1]];
      assert b == b' + [b[|b| - 1]];
    }
  }

  /** Dropping the same last element from two arrangements of the same
      elements leaves arrangements of the same elements. */
  lemma DropLast<T>(a: seq<T>, b: seq<T>)
    requires multiset(a) == multiset(b) && |a| > 0 && |b| > 0
    requires a[|a| - 1] == b[|b| - 1]
    ensures multiset(a[..|a| - 1]) == multiset(b[..|b| - 1])
  {
    var x := a[|a| - 1];
    assert a == a[..|a| - 1] + [x];
    assert b == b[..|b| - 1] + [x];
    var ma, mb := multiset(a[..|a| - 1]), multiset(b[..|b| - 1]);
    assert multiset(a) == ma + multiset{x};
    assert multiset(b) == mb + multiset{x};
    assert ma == multiset(a) - multiset{x};
    assert mb == multiset(b) - multiset{x};
  }

  /** The last elements of a strictly sorted sequence and of a sorted
      arrangement of the same elements coincide. */
  lemma SameLast<T>(a: seq<T>, b: seq<T>, key: T -> int)
    requires StrictlySortedBy(a, key) && SortedBy(b, key)
    requires multiset(a) == multiset(b)
    requires |a| > 0 && |b| > 0
    ensures a[|a| - 1] == b[|b| - 1]
  {
    var la, lb := a[|a| - 1], b[|b| - 1];
    assert la in multiset(b);
    assert lb in multiset(a);
    var i :| 0 <= i < |a| && a[i] == lb;
    var j :| 0 <= j < |b| && b[j] == la;
    assert key(la) <= key(lb);
    assert i == |a| - 1;
  }

  /** A sorted sequence whose keys are pairwise distinct is strictly sorted. */
  lemma SortedDistinctIsStrict<T>(s: seq<T>, key: T -> int)
    requires SortedBy(s, key)
    requires forall i, j :: 0 <= i < j < |s| ==> key(s[i]) != key(s[j])
    ensures StrictlySortedBy(s, key)
  {
  }
}
