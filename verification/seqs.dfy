/** Generic sequence utilities: filtering, duplicate-freedom and an
    insertion sort. The handlers build every listing out of these three. */
module Seqs {

  /** The elements of `s` that satisfy `p`, in their original order
      (a list comprehension with an `if`, or a query `filter(...).all()`). */
  function Filter<T(==, !new)>(s: seq<T>, p: T -> bool): (r: seq<T>)
    ensures |r| <= |s|
    ensures forall x :: x in r <==> x in s && p(x)
    ensures forall x :: multiset(r)[x] == if p(x) then multiset(s)[x] else 0
  {
    if |s| == 0 then []
    else
      assert s == [s[0]] + s[1..];
      if p(s[0]) then [s[0]] + Filter(s[1..], p) else Filter(s[1..], p)
  }

  /** Filtering by two complementary conditions splits `s` into two lists that
      together hold every element exactly as often as `s` does. */
  lemma FilterPartition<T(!new)>(s: seq<T>, p: T -> bool, q: T -> bool)
    requires forall x :: q(x) == !p(x)
    ensures multiset(Filter(s, p)) + multiset(Filter(s, q)) == multiset(s)
    ensures |Filter(s, p)| + |Filter(s, q)| == |s|
  {
    var a, b := Filter(s, p), Filter(s, q);
    assert multiset(a) + multiset(b) == multiset(s);
    calc {
      |a| + |b|;
      |multiset(a)| + |multiset(b)|;
      |multiset(a) + multiset(b)|;
      |multiset(s)|;
    }
  }

  /** A filter every element passes changes nothing. */
  lemma {:induction false} FilterKeepsAll<T(!new)>(s: seq<T>, p: T -> bool)
    requires forall x :: x in s ==> p(x)
    ensures Filter(s, p) == s
    decreases |s|
  {
    if |s| > 0 {
      FilterKeepsAll(s[1..], p);
      assert s == [s[0]] + s[1..];
    }
  }

  /** No element occurs twice. */
  predicate Distinct<T(==)>(s: seq<T>) {
    forall i, j :: 0 <= i < j < |s| ==> s[i] != s[j]
  }

  /** The elements of `s` with later repetitions dropped (first-seen order). */
  function Dedup<T(==, !new)>(s: seq<T>): (r: seq<T>)
    ensures Distinct(r)
    ensures forall x :: x in r <==> x in s
    decreases |s|
  {
    if |s| == 0 then []
    else
      var rest := Dedup(s[..|s| - 1]);
      if s[|s| - 1] in rest then rest else rest + [s[|s| - 1]]
  }

  /** Duplicate-freedom is a property of the multiset of a sequence. */
  lemma {:induction false} DistinctIffSingleCopies<T>(s: seq<T>)
    ensures Distinct(s) <==> forall x :: multiset(s)[x] <= 1
  {
    if |s| > 0 {
      var t := s[1..];
      assert s == [s[0]] + t;
      DistinctIffSingleCopies(t);
      if Distinct(s) {
        assert Distinct(t) by {
          forall i, j | 0 <= i < j < |t| ensures t[i] != t[j] {
            assert t[i] == s[i + 1] && t[j] == s[j + 1];
          }
        }
        assert s[0] !in t;
      } else {
        var i, j :| 0 <= i < j < |s| && s[i] == s[j];
        if i == 0 {
          assert s[j] == t[j - 1];
          assert multiset(s)[s[0]] >= 2;
        } else {
          assert t[i - 1] == t[j - 1];
          assert !Distinct(t);
          var x :| multiset(t)[x] > 1;
          assert multiset(s)[x] >= multiset(t)[x];
        }
      }
    }
  }

  /** Joining two duplicate-free sequences with no element in common gives a
      duplicate-free sequence. */
  lemma DistinctAppend<T>(a: seq<T>, b: seq<T>)
    requires Distinct(a) && Distinct(b)
    requires forall x :: x in a ==> x !in b
    ensures Distinct(a + b)
  {
    forall i, j | 0 <= i < j < |a + b| ensures (a + b)[i] != (a + b)[j] {
      if i >= |a| {
        assert (a + b)[i] == b[i - |a|] && (a + b)[j] == b[j - |a|];
      } else if j >= |a| {
        assert (a + b)[i] in a && (a + b)[j] in b;
      }
    }
  }

  /** `DistinctAppend` for four pieces. */
  lemma DistinctConcat4<T>(a: seq<T>, b: seq<T>, c: seq<T>, d: seq<T>)
    requires Distinct(a) && Distinct(b) && Distinct(c) && Distinct(d)
    requires forall x :: x in a ==> x !in b + c + d
    requires forall x :: x in b ==> x !in c + d
    requires forall x :: x in c ==> x !in d
    ensures Distinct(a + b + c + d)
  {
    DistinctAppend(c, d);
    DistinctAppend(b, c + d);
    assert b + c + d == b + (c + d);
    DistinctAppend(a, b + c + d);
    assert a + b + c + d == a + (b + c + d);
  }

  /** Reordering a sequence keeps it duplicate-free. */
  lemma DistinctPermutation<T>(a: seq<T>, b: seq<T>)
    requires multiset(a) == multiset(b)
    requires Distinct(a)
    ensures Distinct(b)
  {
    DistinctIffSingleCopies(a);
    DistinctIffSingleCopies(b);
  }

  /** `le` is total and transitive: the comparison behind Python's `sorted`. */
  ghost predicate TotalPreorder<T(!new)>(le: (T, T) -> bool) {
    && (forall x, y :: le(x, y) || le(y, x))
    && (forall x, y, z :: le(x, y) && le(y, z) ==> le(x, z))
  }

  /** Every element is `le` every element after it. */
  predicate SortedBy<T>(s: seq<T>, le: (T, T) -> bool) {
    forall i, j :: 0 <= i < j < |s| ==> le(s[i], s[j])
  }

  /** An element `le` every element of a sorted list can go in front of it. */
  lemma SortedCons<T>(h: T, t: seq<T>, le: (T, T) -> bool)
    requires SortedBy(t, le)
    requires forall y :: y in t ==> le(h, y)
    ensures SortedBy([h] + t, le)
  {
    forall i, j | 0 <= i < j < |[h] + t| ensures le(([h] + t)[i], ([h] + t)[j]) {
      if i == 0 {
        assert ([h] + t)[j] == t[j - 1];
      } else {
        assert ([h] + t)[i] == t[i - 1] && ([h] + t)[j] == t[j - 1];
      }
    }
  }

  /** Inserts `x` after every element it does not strictly precede, so that
      among equal elements the one inserted last ends up last. */
  function Insert<T(==, !new)>(x: T, s: seq<T>, le: (T, T) -> bool): (r: seq<T>)
    requires TotalPreorder(le)
    requires SortedBy(s, le)
    ensures SortedBy(r, le)
    ensures multiset(r) == multiset(s) + multiset{x}
    decreases |s|
  {
    if |s| == 0 then [x]
    else if !le(s[0], x) then [x] + s
    else
      var tail := Insert(x, s[1..], le);
      assert s == [s[0]] + s[1..];
      assert forall y :: y in tail ==> le(s[0], y) by {
        forall y | y in tail ensures le(s[0], y) {
          assert y in multiset(s[1..]) + multiset{x};
          if y != x {
            var k :| 0 <= k < |s[1..]| && s[1..][k] == y;
            assert s[k + 1] == y;
          }
        }
      }
      SortedCons(s[0], tail, le);
      [s[0]] + tail
  }

  /** An insertion sort, ascending by `le`. Ties keep their input order by
      construction; the contract states order and permutation only. */
  function Sort<T(==, !new)>(s: seq<T>, le: (T, T) -> bool): (r: seq<T>)
    requires TotalPreorder(le)
    ensures SortedBy(r, le)
    ensures multiset(r) == multiset(s)
    ensures |r| == |s|
    decreases |s|
  {
    if |s| == 0 then []
    else
      assert s == s[..|s| - 1] + [s[|s| - 1]];
      var r := Insert(s[|s| - 1], Sort(s[..|s| - 1], le), le);
      assert |multiset(r)| == |multiset(s)|;
      r
  }

  lemma HeadIn<T>(s: seq<T>)
    requires |s| > 0
    ensures s[0] in s
  {
  }

  /** The elements of a tail are elements of the whole. */
  lemma TailIn<T>(s: seq<T>)
    requires |s| > 0
    ensures forall x :: x in s[1..] ==> x in s
  {
  }

  /** The first elements of two such sequences agree (see `SortedUnique`). */
  lemma SortedHeadsAgree<T(!new)>(a: seq<T>, b: seq<T>, le: (T, T) -> bool)
    requires |a| > 0
    requires SortedBy(a, le) && SortedBy(b, le)
    requires Distinct(a) && Distinct(b)
    requires forall x :: x in a <==> x in b
    requires forall x, y :: x in a && y in a && le(x, y) && le(y, x) ==> x == y
    ensures |b| > 0 && a[0] == b[0]
  {
    assert a[0] in a;
    var j :| 0 <= j < |b| && b[j] == a[0];
    assert b[0] in a;
    var i :| 0 <= i < |a| && a[i] == b[0];
  }

  /** Sequences sorted by `le`, without repetitions and holding the same
      elements are equal, provided `le` orders those elements strictly: the
      result of sorting does not depend on the order the elements came in. */
  lemma {:induction false} SortedUnique<T(!new)>(a: seq<T>, b: seq<T>, le: (T, T) -> bool)
    requires SortedBy(a, le) && SortedBy(b, le)
    requires Distinct(a) && Distinct(b)
    requires forall x :: x in a <==> x in b
    requires forall x, y :: x in a && y in a && le(x, y) && le(y, x) ==> x == y
    ensures a == b
    decreases |a|
  {
    if |a| > 0 {
      SortedHeadsAgree(a, b, le);
      var a', b' := a[1..], b[1..];
      assert a == [a[0]] + a' && b == [b[0]] + b';
      assert a[0] == b[0];
      forall x | x in a' ensures x in b' {
        var k :| 0 <= k < |a'| && a'[k] == x;
        assert a[k + 1] == x && a[k + 1] != a[0];
        assert x in a;
        var m :| 0 <= m < |b| && b[m] == x;
        assert b'[m - 1] == x;
      }
      forall x | x in b' ensures x in a' {
        var k :| 0 <= k < |b'| && b'[k] == x;
        assert b[k + 1] == x && b[k + 1] != b[0];
        assert x in b;
        var m :| 0 <= m < |a| && a[m] == x;
        assert a'[m - 1] == x;
      }
      SortedUnique(a', b', le);
    } else if |b| > 0 {
      HeadIn(b);
      assert false;
    }
  }

  /** `[f(x) for x in s]`. */
  function Map<T, U>(s: seq<T>, f: T --> U): (r: seq<U>)
    requires forall x :: x in s ==> f.requires(x)
    ensures |r| == |s|
    ensures forall i :: 0 <= i < |s| ==> r[i] == f(s[i])
  {
    if |s| == 0 then [] else [f(s[0])] + Map(s[1..], f)
  }

  lemma MapCons<T, U>(x: T, t: seq<T>, f: T --> U)
    requires f.requires(x) && forall y :: y in t ==> f.requires(y)
    ensures Map([x] + t, f) == [f(x)] + Map(t, f)
  {
    assert ([x] + t)[1..] == t;
  }

  lemma MultisetUnionShuffle<T>(a: multiset<T>, b: multiset<T>, c: multiset<T>)
    ensures (a + b) + c == a + (b + c)
    ensures b + (a + c) == a + (b + c)
  {
  }

  /** Mapping the two halves of a split (see `FilterPartition`) gives, between
      them, every image of the whole exactly as often as mapping the whole. */
  lemma {:induction false} MapFilterPartition<T(!new), U>(s: seq<T>, f: T --> U, p: T -> bool, q: T -> bool)
    requires forall x :: x in s ==> f.requires(x)
    requires forall x :: q(x) == !p(x)
    ensures multiset(Map(Filter(s, p), f)) + multiset(Map(Filter(s, q), f)) == multiset(Map(s, f))
    decreases |s|
  {
    if |s| > 0 {
      var h, t := s[0], s[1..];
      assert s == [h] + t;
      var fp, fq := Filter(t, p), Filter(t, q);
      MapFilterPartition(t, f, p, q);
      MapCons(h, t, f);
      var image := multiset{f(h)};
      assert multiset(Map(s, f)) == image + multiset(Map(t, f));
      if p(h) {
        assert Filter(s, p) == [h] + fp;
        assert Filter(s, q) == fq;
        MapCons(h, fp, f);
        assert multiset(Map(Filter(s, p), f)) == image + multiset(Map(fp, f));
        calc {
          multiset(Map(Filter(s, p), f)) + multiset(Map(Filter(s, q), f));
          (image + multiset(Map(fp, f))) + multiset(Map(fq, f));
          { MultisetUnionShuffle(image, multiset(Map(fp, f)), multiset(Map(fq, f))); }
          image + (multiset(Map(fp, f)) + multiset(Map(fq, f)));
          image + multiset(Map(t, f));
        }
      } else {
        assert Filter(s, q) == [h] + fq;
        assert Filter(s, p) == fp;
        MapCons(h, fq, f);
        assert multiset(Map(Filter(s, q), f)) == image + multiset(Map(fq, f));
        calc {
          multiset(Map(Filter(s, p), f)) + multiset(Map(Filter(s, q), f));
          multiset(Map(fp, f)) + (image + multiset(Map(fq, f)));
          { MultisetUnionShuffle(image, multiset(Map(fp, f)), multiset(Map(fq, f))); }
          image + (multiset(Map(fp, f)) + multiset(Map(fq, f)));
          image + multiset(Map(t, f));
        }
      }
    }
  }

  /** Descending order of `key`. */
  function KeyGe<T>(key: T -> int): (T, T) -> bool {
    (a: T, b: T) => key(a) >= key(b)
  }

  lemma KeyGeIsTotalPreorder<T(!new)>(key: T -> int)
    ensures TotalPreorder(KeyGe(key))
  {
  }

  /** In a list sorted by descending key, nothing after position `n` has a
      greater key than anything before it. */
  lemma SortedPrefixDominates<T>(sorted: seq<T>, key: T -> int, n: nat)
    requires n <= |sorted|
    requires SortedBy(sorted, KeyGe(key))
    ensures forall x, y :: x in sorted[n..] && y in sorted[..n] ==> key(x) <= key(y)
  {
    forall x, y | x in sorted[n..] && y in sorted[..n] ensures key(x) <= key(y) {
      var i :| 0 <= i < n && sorted[..n][i] == y;
      var j :| 0 <= j < |sorted| - n && sorted[n..][j] == x;
      assert KeyGe(key)(sorted[i], sorted[n + j]);
    }
  }

  /** The `k` elements with the greatest `key`, greatest first
      (`order_by(key.desc()).limit(k)`); ties keep their input order. */
  function TopK<T(==, !new)>(s: seq<T>, key: T -> int, k: nat): (r: seq<T>)
    ensures |r| == if |s| < k then |s| else k
    ensures forall i, j :: 0 <= i < j < |r| ==> key(r[i]) >= key(r[j])
    ensures multiset(r) <= multiset(s)
    ensures forall x, y :: x in multiset(s) - multiset(r) && y in r ==> key(x) <= key(y)
  {
    KeyGeIsTotalPreorder(key);
    var sorted := Sort(s, KeyGe(key));
    var n := if |s| < k then |s| else k;
    var r, rest := sorted[..n], sorted[n..];
    assert sorted == r + rest;
    assert multiset(r) + multiset(rest) == multiset(s);
    SortedPrefixDominates(sorted, key, n);
    assert forall i, j :: 0 <= i < j < |r| ==> KeyGe(key)(r[i], r[j]);
    assert forall x :: x in multiset(s) - multiset(r) ==> x in rest;
    r
  }
}
