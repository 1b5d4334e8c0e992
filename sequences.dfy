/**
 * Sequence operations behind the table manipulations of the pipeline:
 * boolean-mask filtering (`df[mask]`, `dropna`) and an insertion sort
 * (`sort_values`, `sorted`).
 */
module Sequences {

  /** The rows of `xs` that satisfy `p`, in their original order. */
  function Filter<T>(p: T -> bool, xs: seq<T>): (r: seq<T>)
    ensures |r| <= |xs|
  {
    if |xs| == 0 then []
    else
      var init := Filter(p, xs[..|xs| - 1]);
      if p(xs[|xs| - 1]) then init + [xs[|xs| - 1]] else init
  }

  /** `ix` lists, in increasing order, positions of `b` whose elements spell out `a`. */
  ghost predicate EmbedsBy<T>(a: seq<T>, b: seq<T>, ix: seq<nat>) {
    |ix| == |a|
    && (forall j :: 0 <= j < |ix| ==> ix[j] < |b| && a[j] == b[ix[j]])
    && (forall j, k :: 0 <= j < k < |ix| ==> ix[j] < ix[k])
  }

  /** `a` is a subsequence of `b`: `b` with some elements removed, the rest in order. */
  ghost predicate IsSubseq<T>(a: seq<T>, b: seq<T>) {
    exists ix :: EmbedsBy(a, b, ix)
  }

  /** The positions in `xs` of the rows that `Filter(p, xs)` keeps. */
  ghost function FilterIndices<T>(p: T -> bool, xs: seq<T>): (ix: seq<nat>)
    ensures EmbedsBy(Filter(p, xs), xs, ix)
    ensures forall i :: 0 <= i < |xs| && p(xs[i]) ==> i in ix
  {
    if |xs| == 0 then []
    else
      var n := |xs| - 1;
      var ix0 := FilterIndices(p, xs[..n]);
      var ix := if p(xs[n]) then ix0 + [n] else ix0;
      FilterIndicesEmbed(p, xs, ix0, ix);
      FilterIndicesCover(p, xs, ix0, ix);
      ix
  }

  lemma FilterIndicesEmbed<T>(p: T -> bool, xs: seq<T>, ix0: seq<nat>, ix: seq<nat>)
    requires |xs| > 0
    requires EmbedsBy(Filter(p, xs[..|xs| - 1]), xs[..|xs| - 1], ix0)
    requires ix == if p(xs[|xs| - 1]) then ix0 + [|xs| - 1] else ix0
    ensures EmbedsBy(Filter(p, xs), xs, ix)
  {
    var n := |xs| - 1;
    var init := xs[..n];
    var f0 := Filter(p, init);
    assert forall j :: 0 <= j < |ix0| ==> ix0[j] < n && f0[j] == xs[ix0[j]] by {
      forall j | 0 <= j < |ix0| ensures ix0[j] < n && f0[j] == xs[ix0[j]] {
        assert init[ix0[j]] == xs[ix0[j]];
      }
    }
    if p(xs[n]) {
      EmbedAppend(f0, xs, ix0, n);
    }
  }

  lemma EmbedAppend<T>(f0: seq<T>, xs: seq<T>, ix0: seq<nat>, n: nat)
    requires n < |xs| && |ix0| == |f0|
    requires forall j :: 0 <= j < |ix0| ==> ix0[j] < n && f0[j] == xs[ix0[j]]
    requires forall j, k :: 0 <= j < k < |ix0| ==> ix0[j] < ix0[k]
    ensures EmbedsBy(f0 + [xs[n]], xs, ix0 + [n])
  {
  }

  lemma FilterIndicesCover<T>(p: T -> bool, xs: seq<T>, ix0: seq<nat>, ix: seq<nat>)
    requires |xs| > 0
    requires forall i :: 0 <= i < |xs| - 1 && p(xs[..|xs| - 1][i]) ==> i in ix0
    requires ix == if p(xs[|xs| - 1]) then ix0 + [|xs| - 1] else ix0
    ensures forall i :: 0 <= i < |xs| && p(xs[i]) ==> i in ix
  {
    var n := |xs| - 1;
    forall i | 0 <= i < |xs| && p(xs[i]) ensures i in ix {
      if i < n {
        assert xs[..n][i] == xs[i];
      } else {
        assert ix == ix0 + [n];
      }
    }
  }

  /** An element survives the filter exactly when it occurs in `xs` and satisfies `p`. */
  lemma {:induction false} FilterMembers<T>(p: T -> bool, xs: seq<T>)
    ensures forall x :: x in Filter(p, xs) <==> x in xs && p(x)
  {
    if |xs| != 0 {
      var init := xs[..|xs| - 1];
      FilterMembers(p, init);
      assert xs == init + [xs[|xs| - 1]];
    }
  }

  /** Each value occurs in the filtered rows as often as in `xs` if it satisfies `p`, else never. */
  lemma {:induction false} FilterMultiplicity<T>(p: T -> bool, xs: seq<T>, x: T)
    ensures multiset(Filter(p, xs))[x] == if p(x) then multiset(xs)[x] else 0
  {
    if |xs| != 0 {
      var init := xs[..|xs| - 1];
      FilterMultiplicity(p, init, x);
      assert xs == init + [xs[|xs| - 1]];
    }
  }

  lemma FilterIsSubseq<T>(p: T -> bool, xs: seq<T>)
    ensures IsSubseq(Filter(p, xs), xs)
  {
    var ix := FilterIndices(p, xs);
    assert EmbedsBy(Filter(p, xs), xs, ix);
  }

  /** Filtering by a predicate and by its negation splits `xs` with nothing lost or duplicated. */
  lemma {:induction false} FilterPartition<T>(p: T -> bool, q: T -> bool, xs: seq<T>)
    requires forall x :: q(x) == !p(x)
    ensures multiset(Filter(p, xs)) + multiset(Filter(q, xs)) == multiset(xs)
  {
    if |xs| != 0 {
      var init := xs[..|xs| - 1];
      FilterPartition(p, q, init);
      assert xs == init + [xs[|xs| - 1]];
    }
  }

  ghost predicate Total<T(!new)>(le: (T, T) -> bool) {
    forall a, b :: le(a, b) || le(b, a)
  }

  ghost predicate Transitive<T(!new)>(le: (T, T) -> bool) {
    forall a, b, c :: le(a, b) && le(b, c) ==> le(a, c)
  }

  /** Every earlier element is `le` every later one. */
  ghost predicate SortedBy<T>(s: seq<T>, le: (T, T) -> bool) {
    forall i, j :: 0 <= i < j < |s| ==> le(s[i], s[j])
  }

  /** Put `x` before the first element it is `le`; so `x` precedes the elements equal to it. */
  function Insert<T(!new)>(x: T, s: seq<T>, le: (T, T) -> bool): (r: seq<T>)
    requires Total(le) && Transitive(le) && SortedBy(s, le)
    ensures multiset(r) == multiset(s) + multiset{x}
    ensures SortedBy(r, le)
  {
    if |s| == 0 then [x]
    else if le(x, s[0]) then
      assert forall j :: 0 < j < |s| ==> le(s[0], s[j]);
      [x] + s
    else
      var rest := Insert(x, s[1..], le);
      assert s == [s[0]] + s[1..];
      assert forall y :: y in rest ==> le(s[0], y) by {
        forall y | y in rest ensures le(s[0], y) {
          assert y in multiset(rest);
          assert y == x || y in multiset(s[1..]);
        }
      }
      [s[0]] + rest
  }

  /** Insertion sort: a sorted permutation of `xs` (built to be stable, which is not proved). */
  function InsertionSort<T(!new)>(xs: seq<T>, le: (T, T) -> bool): (r: seq<T>)
    requires Total(le) && Transitive(le)
    ensures multiset(r) == multiset(xs)
    ensures SortedBy(r, le)
  {
    if |xs| == 0 then []
    else
      assert xs == [xs[0]] + xs[1..];
      Insert(xs[0], InsertionSort(xs[1..], le), le)
  }
}
