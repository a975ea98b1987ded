/**
 * Python's `sorted(xs, key=...)` (and with `reverse=True`): a stable sort.
 * The order is given as a comparison `le` that must be a total preorder;
 * elements that compare equal both ways (equal keys) keep their input order.
 */
module Sorting {

  ghost predicate TotalPreorder<T(!new)>(le: (T, T) -> bool) {
    && (forall a, b :: le(a, b) || le(b, a))
    && (forall a, b, c :: le(a, b) && le(b, c) ==> le(a, c))
  }

  /** A total order: a total preorder in which only equal elements tie. */
  ghost predicate TotalOrder<T(!new)>(le: (T, T) -> bool) {
    && TotalPreorder(le)
    && (forall a, b :: le(a, b) && le(b, a) ==> a == b)
  }

  ghost predicate Sorted<T>(s: seq<T>, le: (T, T) -> bool) {
    forall i, j :: 0 <= i < j < |s| ==> le(s[i], s[j])
  }

  /** Inserts `x` before the first element it does not exceed, so before
      every element with an equal key. */
  function Insert<T>(x: T, s: seq<T>, le: (T, T) -> bool): (r: seq<T>)
    ensures multiset(r) == multiset(s) + multiset{x}
  {
    if s == [] || le(x, s[0]) then [x] + s
    else
      assert s == [s[0]] + s[1..];
      [s[0]] + Insert(x, s[1..], le)
  }

  /** Insertion sort: the first element is inserted into the sorted rest. */
  function Sort<T>(s: seq<T>, le: (T, T) -> bool): (r: seq<T>)
    ensures multiset(r) == multiset(s)
  {
    if s == [] then []
    else
      assert s == [s[0]] + s[1..];
      Insert(s[0], Sort(s[1..], le), le)
  }

  /** An element no greater than any element of a sorted sequence can go in front. */
  lemma ConsSorted<T>(h: T, t: seq<T>, le: (T, T) -> bool)
    requires Sorted(t, le) && forall y :: y in t ==> le(h, y)
    ensures Sorted([h] + t, le)
  {
    var r := [h] + t;
    forall i, j | 0 <= i < j < |r| ensures le(r[i], r[j]) {
      assert r[j] == t[j - 1];
      if i > 0 {
        assert r[i] == t[i - 1];
      }
    }
  }

  /** The head of a sorted sequence is below everything in it. */
  lemma SortedHeadBelow<T(!new)>(s: seq<T>, le: (T, T) -> bool)
    requires TotalPreorder(le) && Sorted(s, le) && s != []
    ensures forall y :: y in s ==> le(s[0], y)
  {
    forall y | y in s ensures le(s[0], y) {
      var k :| 0 <= k < |s| && s[k] == y;
      if k == 0 {
        assert le(y, y) || le(y, y);
      }
    }
  }

  lemma SortedTail<T>(s: seq<T>, le: (T, T) -> bool)
    requires Sorted(s, le) && s != []
    ensures Sorted(s[1..], le)
  {
    forall i, j | 0 <= i < j < |s| - 1 ensures le(s[1..][i], s[1..][j]) {
      assert s[1..][i] == s[i + 1] && s[1..][j] == s[j + 1];
    }
  }

  lemma {:induction false} InsertSorted<T(!new)>(x: T, s: seq<T>, le: (T, T) -> bool)
    requires TotalPreorder(le) && Sorted(s, le)
    ensures Sorted(Insert(x, s, le), le)
  {
    if s == [] {
      ConsSorted(x, s, le);
    } else if le(x, s[0]) {
      SortedHeadBelow(s, le);
      forall y | y in s ensures le(x, y) {
        assert le(x, s[0]) && le(s[0], y);
      }
      ConsSorted(x, s, le);
    } else {
      SortedTail(s, le);
      var t := Insert(x, s[1..], le);
      InsertSorted(x, s[1..], le);
      SortedHeadBelow(s, le);
      forall y | y in t ensures le(s[0], y) {
        assert y in multiset(t);
        if y != x {
          assert y in multiset(s[1..]);
          assert y in s;
        }
      }
      ConsSorted(s[0], t, le);
    }
  }

  /** The sort orders its output. */
  lemma {:induction false} SortSorted<T(!new)>(s: seq<T>, le: (T, T) -> bool)
    requires TotalPreorder(le)
    ensures Sorted(Sort(s, le), le)
  {
    if s != [] {
      SortSorted(s[1..], le);
      InsertSorted(s[0], Sort(s[1..], le), le);
    }
  }

  /** The elements of `s` whose key equals that of `k`, in their order in `s`. */
  function SameKey<T>(s: seq<T>, le: (T, T) -> bool, k: T): (r: seq<T>)
    ensures |r| <= |s|
  {
    if s == [] then []
    else (if le(s[0], k) && le(k, s[0]) then [s[0]] else []) + SameKey(s[1..], le, k)
  }

  lemma SameKeyIn<T>(h: T, t: seq<T>, le: (T, T) -> bool, k: T)
    requires le(h, k) && le(k, h)
    ensures SameKey([h] + t, le, k) == [h] + SameKey(t, le, k)
  {
    assert ([h] + t)[1..] == t;
  }

  lemma SameKeyOut<T>(h: T, t: seq<T>, le: (T, T) -> bool, k: T)
    requires !(le(h, k) && le(k, h))
    ensures SameKey([h] + t, le, k) == SameKey(t, le, k)
  {
    assert ([h] + t)[1..] == t;
  }

  lemma {:induction false} InsertStable<T(!new)>(x: T, s: seq<T>, le: (T, T) -> bool, k: T)
    requires TotalPreorder(le)
    ensures SameKey(Insert(x, s, le), le, k) == SameKey([x] + s, le, k)
  {
    if s != [] && !le(x, s[0]) {
      var t := Insert(x, s[1..], le);
      assert Insert(x, s, le) == [s[0]] + t;
      assert s == [s[0]] + s[1..];
      InsertStable(x, s[1..], le, k);
      if le(x, k) && le(k, x) {
        // s[0] ranks strictly below x, so below k as well
        assert !(le(s[0], k) && le(k, s[0]));
        SameKeyOut(s[0], t, le, k);
        SameKeyIn(x, s[1..], le, k);
        SameKeyIn(x, s, le, k);
        SameKeyOut(s[0], s[1..], le, k);
      } else {
        SameKeyOut(x, s[1..], le, k);
        SameKeyOut(x, s, le, k);
        if le(s[0], k) && le(k, s[0]) {
          SameKeyIn(s[0], t, le, k);
          SameKeyIn(s[0], s[1..], le, k);
        } else {
          SameKeyOut(s[0], t, le, k);
          SameKeyOut(s[0], s[1..], le, k);
        }
      }
    }
  }

  /** Stability: for every key, the elements with that key appear in the
      output in the same order as in the input. */
  lemma {:induction false} SortStable<T(!new)>(s: seq<T>, le: (T, T) -> bool, k: T)
    requires TotalPreorder(le)
    ensures SameKey(Sort(s, le), le, k) == SameKey(s, le, k)
  {
    if s != [] {
      var t := Sort(s[1..], le);
      SortStable(s[1..], le, k);
      InsertStable(s[0], t, le, k);
      assert ([s[0]] + t)[1..] == t;
    }
  }

  lemma SortedHeadLeast<T(!new)>(b: seq<T>, le: (T, T) -> bool, y: T)
    requires TotalPreorder(le) && Sorted(b, le) && y in multiset(b)
    ensures le(b[0], y)
  {
    var i :| 0 <= i < |b| && b[i] == y;
    if i == 0 {
      assert le(y, y) || le(y, y);
    }
  }

  lemma TailMultiset<T>(a: seq<T>)
    requires a != []
    ensures multiset(a[1..]) == multiset(a) - multiset{a[0]}
  {
    assert a == [a[0]] + a[1..];
  }

  /** Under a total order, two sorted sequences with the same elements are equal. */
  lemma {:induction false} SortedUnique<T(!new)>(a: seq<T>, b: seq<T>, le: (T, T) -> bool)
    requires TotalOrder(le)
    requires Sorted(a, le) && Sorted(b, le) && multiset(a) == multiset(b)
    ensures a == b
    decreases |a|
  {
    SameLength(a, b);
    if a != [] {
      SameHead(a, b, le);
      SameTails(a, b);
      SortedTail(a, le);
      SortedTail(b, le);
      SortedUnique(a[1..], b[1..], le);
      HeadTailEqual(a, b);
    }
  }

  lemma SameLength<T>(a: seq<T>, b: seq<T>)
    requires multiset(a) == multiset(b)
    ensures |a| == |b|
  {
    assert |a| == |multiset(a)| == |multiset(b)| == |b|;
  }

  lemma SameTails<T>(a: seq<T>, b: seq<T>)
    requires a != [] && b != [] && a[0] == b[0] && multiset(a) == multiset(b)
    ensures multiset(a[1..]) == multiset(b[1..])
  {
    TailMultiset(a);
    TailMultiset(b);
  }

  lemma HeadTailEqual<T>(a: seq<T>, b: seq<T>)
    requires a != [] && b != [] && a[0] == b[0] && a[1..] == b[1..]
    ensures a == b
  {
    assert a == [a[0]] + a[1..] && b == [b[0]] + b[1..];
  }

  /** Two non-empty sorted sequences with the same elements start alike. */
  lemma SameHead<T(!new)>(a: seq<T>, b: seq<T>, le: (T, T) -> bool)
    requires TotalOrder(le) && a != [] && b != []
    requires Sorted(a, le) && Sorted(b, le) && multiset(a) == multiset(b)
    ensures a[0] == b[0]
  {
    SortedHeadLeast(b, le, a[0]);
    SortedHeadLeast(a, le, b[0]);
  }

  /** Under a total order the sort depends only on the elements, not on the
      order in which they are given. */
  lemma SortPermutationInvariant<T(!new)>(a: seq<T>, b: seq<T>, le: (T, T) -> bool)
    requires TotalOrder(le)
    requires multiset(a) == multiset(b)
    ensures Sort(a, le) == Sort(b, le)
  {
    SortSorted(a, le);
    SortSorted(b, le);
    SortedUnique(Sort(a, le), Sort(b, le), le);
  }

  // ---------------------------------------------------------------------------
  // Python's ordering of `str` values
  // ---------------------------------------------------------------------------

  /** `a <= b` for Python strings: lexicographic by code point. */
  predicate LexLe(a: string, b: string) {
    a == [] || (b != [] && (a[0] < b[0] || (a[0] == b[0] && LexLe(a[1..], b[1..]))))
  }

  lemma {:induction false} LexLeTotal(a: string, b: string)
    ensures LexLe(a, b) || LexLe(b, a)
  {
    if a != [] && b != [] && a[0] == b[0] {
      LexLeTotal(a[1..], b[1..]);
    }
  }

  lemma {:induction false} LexLeTransitive(a: string, b: string, c: string)
    requires LexLe(a, b) && LexLe(b, c)
    ensures LexLe(a, c)
  {
    if a != [] && a[0] == b[0] && b[0] == c[0] {
      LexLeTransitive(a[1..], b[1..], c[1..]);
    }
  }

  lemma {:induction false} LexLeAntisymmetric(a: string, b: string)
    requires LexLe(a, b) && LexLe(b, a)
    ensures a == b
  {
    if a != [] {
      LexLeAntisymmetric(a[1..], b[1..]);
      assert a == [a[0]] + a[1..] && b == [b[0]] + b[1..];
    }
  }

  /** Python's string comparison is a total order. */
  lemma LexLeTotalOrder()
    ensures TotalOrder(LexLe)
  {
    forall a, b ensures LexLe(a, b) || LexLe(b, a) { LexLeTotal(a, b); }
    forall a, b, c | LexLe(a, b) && LexLe(b, c) ensures LexLe(a, c) { LexLeTransitive(a, b, c); }
    forall a, b | LexLe(a, b) && LexLe(b, a) ensures a == b { LexLeAntisymmetric(a, b); }
  }

  /** `sorted(strings)` */
  function SortStrings(s: seq<string>): (r: seq<string>)
    ensures multiset(r) == multiset(s)
  {
    Sort(s, LexLe)
  }
}
