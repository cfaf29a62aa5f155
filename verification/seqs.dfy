/** `Array.prototype.filter` over immutable sequences, and the order-preserving
    subsequence relation its result stands in. */
module Seqs {

  /** `s.filter(p)`: the elements of `s` that satisfy `p`, in their order. */
  function Filter<T>(p: T -> bool, s: seq<T>): (r: seq<T>)
    ensures |r| <= |s|
    ensures forall x | x in r :: x in s && p(x)
    ensures forall x | x in s && p(x) :: x in r
  {
    if |s| == 0 then []
    else if p(s[0]) then [s[0]] + Filter(p, s[1..])
    else Filter(p, s[1..])
  }

  /** `idx` lists, in strictly increasing order, the positions in `b` at which
      the elements of `a` are found. */
  ghost predicate Embedding<T>(idx: seq<int>, a: seq<T>, b: seq<T>) {
    && |idx| == |a|
    && (forall k :: 0 <= k < |idx| ==> 0 <= idx[k] < |b| && a[k] == b[idx[k]])
    && (forall k, l :: 0 <= k < l < |idx| ==> idx[k] < idx[l])
  }

  /** `a` is `b` with some elements removed and the rest kept in order. */
  ghost predicate IsSubsequence<T>(a: seq<T>, b: seq<T>) {
    exists idx :: Embedding(idx, a, b)
  }

  function Shift(idx: seq<int>): (r: seq<int>)
    ensures |r| == |idx| && forall k :: 0 <= k < |idx| ==> r[k] == idx[k] + 1
  {
    seq(|idx|, k requires 0 <= k < |idx| => idx[k] + 1)
  }

  /** Putting an element in front of `b` moves every position one up. */
  lemma ShiftEmbedding<T>(idx: seq<int>, a: seq<T>, x: T, b: seq<T>)
    requires Embedding(idx, a, b)
    ensures Embedding(Shift(idx), a, [x] + b)
  {
    var sh := Shift(idx);
    forall k | 0 <= k < |sh| ensures 0 <= sh[k] < |b| + 1 && a[k] == ([x] + b)[sh[k]] {
      assert ([x] + b)[idx[k] + 1] == b[idx[k]];
    }
  }

  /** Putting the same element in front of both adds position 0. */
  lemma ConsEmbedding<T>(idx: seq<int>, a: seq<T>, x: T, b: seq<T>)
    requires Embedding(idx, a, b)
    ensures Embedding([0] + Shift(idx), [x] + a, [x] + b)
  {
    ShiftEmbedding(idx, a, x, b);
    var sh := Shift(idx);
    var r := [0] + sh;
    forall k | 1 <= k < |r|
      ensures r[k] == sh[k - 1] && 1 <= r[k] && ([x] + a)[k] == ([x] + b)[r[k]]
    {
      assert ([x] + a)[k] == a[k - 1];
    }
    forall k, l | 0 <= k < l < |r| ensures r[k] < r[l] {
      if k > 0 {
        assert sh[k - 1] < sh[l - 1];
      }
    }
  }

  /** The positions in `s` of the elements `Filter` keeps, in increasing order. */
  function FilterIndices<T>(p: T -> bool, s: seq<T>): (idx: seq<int>)
    ensures Embedding(idx, Filter(p, s), s)
  {
    if |s| == 0 then []
    else
      var rest := FilterIndices(p, s[1..]);
      assert s == [s[0]] + s[1..];
      if p(s[0]) then
        ConsEmbedding(rest, Filter(p, s[1..]), s[0], s[1..]);
        [0] + Shift(rest)
      else
        ShiftEmbedding(rest, Filter(p, s[1..]), s[0], s[1..]);
        Shift(rest)
  }

  /** Filtering yields an order-preserving subsequence. */
  lemma FilterIsSubsequence<T>(p: T -> bool, s: seq<T>)
    ensures IsSubsequence(Filter(p, s), s)
  {
    var idx := FilterIndices(p, s);
  }

  /** Filtering keeps every copy of a satisfying element and none of the others. */
  lemma {:induction false} FilterMultiplicity<T>(p: T -> bool, s: seq<T>, x: T)
    ensures multiset(Filter(p, s))[x] == if p(x) then multiset(s)[x] else 0
  {
    if |s| > 0 {
      FilterMultiplicity(p, s[1..], x);
      assert s == [s[0]] + s[1..];
    }
  }

  /** A predicate that holds throughout `s` filters nothing out. */
  lemma {:induction false} FilterKeepsAll<T>(p: T -> bool, s: seq<T>)
    requires forall x :: x in s ==> p(x)
    ensures Filter(p, s) == s
  {
    if |s| > 0 {
      FilterKeepsAll(p, s[1..]);
      assert s == [s[0]] + s[1..];
    }
  }

  /** Two predicates that agree on the elements of `s` filter it alike. */
  lemma {:induction false} FilterAgree<T>(p: T -> bool, q: T -> bool, s: seq<T>)
    requires forall x :: x in s ==> (p(x) <==> q(x))
    ensures Filter(p, s) == Filter(q, s)
  {
    if |s| > 0 {
      FilterAgree(p, q, s[1..]);
    }
  }

  /** Two successive filters are one filter by the conjunction. */
  lemma {:induction false} FilterFuse<T>(p: T -> bool, q: T -> bool, r: T -> bool, s: seq<T>)
    requires forall x :: x in s ==> (r(x) <==> p(x) && q(x))
    ensures Filter(q, Filter(p, s)) == Filter(r, s)
  {
    if |s| > 0 {
      FilterFuse(p, q, r, s[1..]);
      if p(s[0]) {
        assert Filter(p, s) == [s[0]] + Filter(p, s[1..]);
        assert Filter(p, s)[1..] == Filter(p, s[1..]);
      }
    }
  }
}
