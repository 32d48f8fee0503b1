/** Generic sequence helpers shared by the task-list model: an optional value,
    JavaScript's `Array.prototype.filter`, and the "order-preserving
    subsequence" relation that a filter's result stands in to its input. */
module Seqs {

  /** A value that may be missing (`undefined` / `null` on the JavaScript side). */
  datatype Option<+T> = None | Some(value: T)

  /** `a` is obtained from `b` by deleting zero or more elements and keeping
      the order of the rest. */
  predicate IsSubseq<T(==)>(a: seq<T>, b: seq<T>)
    decreases |b|
  {
    if a == [] then true
    else if b == [] then false
    else (a[0] == b[0] && IsSubseq(a[1..], b[1..])) || IsSubseq(a, b[1..])
  }

  /** The elements of `s` that satisfy `p`, in their original order. */
  function Filter<T(==)>(s: seq<T>, p: T -> bool): (r: seq<T>)
    ensures |r| <= |s|
    ensures forall i :: 0 <= i < |r| ==> r[i] in s && p(r[i])
    ensures forall i :: 0 <= i < |s| && p(s[i]) ==> s[i] in r
    ensures IsSubseq(r, s)
    ensures |r| == |s| <==> forall i :: 0 <= i < |s| ==> p(s[i])
    ensures |r| == |s| ==> r == s
    decreases |s|
  {
    if s == [] then []
    else if p(s[0]) then [s[0]] + Filter(s[1..], p)
    else Filter(s[1..], p)
  }

  /** Filtering works element by element: it distributes over concatenation. */
  lemma {:induction false} FilterConcat<T>(a: seq<T>, b: seq<T>, p: T -> bool)
    ensures Filter(a + b, p) == Filter(a, p) + Filter(b, p)
    decreases |a|
  {
    if a == [] {
      assert a + b == b;
    } else {
      assert (a + b)[0] == a[0];
      assert (a + b)[1..] == a[1..] + b;
      FilterConcat(a[1..], b, p);
    }
  }

  /** Filtering keeps every passing value as often as it occurs and drops
      every other value entirely. */
  lemma {:induction false} FilterMultiset<T>(s: seq<T>, p: T -> bool)
    ensures forall x :: multiset(Filter(s, p))[x] == if p(x) then multiset(s)[x] else 0
    decreases |s|
  {
    if s != [] {
      FilterMultiset(s[1..], p);
      assert s == [s[0]] + s[1..];
    }
  }

  /** When every element satisfying `whole` satisfies exactly one of `left`
      and `right`, the two filters together are as long as the filter by
      `whole`. */
  lemma {:induction false} FilterSplitCount<T>(s: seq<T>, whole: T -> bool, left: T -> bool, right: T -> bool)
    requires forall x :: x in s ==> (whole(x) <==> left(x) || right(x))
    requires forall x :: x in s ==> !(left(x) && right(x))
    ensures |Filter(s, left)| + |Filter(s, right)| == |Filter(s, whole)|
    decreases |s|
  {
    if s != [] {
      assert forall x :: x in s[1..] ==> x in s;
      FilterSplitCount(s[1..], whole, left, right);
    }
  }
}
