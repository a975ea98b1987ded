/** Small facts about sequences shared by the modules. */
module Sequences {
  import opened Wrappers

  lemma SeqAssoc<T>(a: seq<T>, b: seq<T>, c: seq<T>)
    ensures a + (b + c) == (a + b) + c
  {
  }

  /** A loop that stops at the first element from `i` on passing `p`: the
      index it stops at, or None when it runs to the end. */
  function FirstWhere<T>(s: seq<T>, p: T -> bool, i: nat): (r: Option<nat>)
    ensures r.Some? ==> i <= r.value < |s| && p(s[r.value])
    decreases |s| - i
  {
    if i >= |s| then None
    else if p(s[i]) then Some(i)
    else FirstWhere(s, p, i + 1)
  }

  /** The loop stops at the first passing element, and runs to the end
      exactly when none passes. */
  lemma {:induction false} FirstWhereMeaning<T>(s: seq<T>, p: T -> bool, i: nat)
    ensures FirstWhere(s, p, i).None? <==> forall k :: i <= k < |s| ==> !p(s[k])
    ensures FirstWhere(s, p, i).Some? ==> forall k :: i <= k < FirstWhere(s, p, i).value ==> !p(s[k])
    decreases |s| - i
  {
    if i < |s| && !p(s[i]) {
      FirstWhereMeaning(s, p, i + 1);
    }
  }

  /** Indices listed in strictly ascending order. */
  predicate Increasing(idx: seq<nat>) {
    forall i, j :: 0 <= i < j < |idx| ==> idx[i] < idx[j]
  }

  /** The indices below `n` whose elements pass `p`, in ascending order. */
  function IndicesWhere<T>(s: seq<T>, p: T -> bool, n: nat): seq<nat>
    requires n <= |s|
  {
    if n == 0 then [] else IndicesWhere(s, p, n - 1) + (if p(s[n - 1]) then [n - 1] else [])
  }

  /** `IndicesWhere` lists each passing index below `n` once, ascending, and
      nothing else. */
  lemma {:induction false} IndicesWhereMeaning<T>(s: seq<T>, p: T -> bool, n: nat)
    requires n <= |s|
    ensures |IndicesWhere(s, p, n)| <= n
    ensures Increasing(IndicesWhere(s, p, n))
    ensures forall k :: 0 <= k < |IndicesWhere(s, p, n)| ==> IndicesWhere(s, p, n)[k] < n
    ensures forall m :: m in IndicesWhere(s, p, n) <==> 0 <= m < n && p(s[m])
  {
    if n > 0 {
      IndicesWhereMeaning(s, p, n - 1);
    }
  }
}
