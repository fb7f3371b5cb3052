/**
 * Sequence vocabulary used by both list-building loops of the system: a filter
 * followed by a projection (a Python list built by conditional `append`), and
 * the order-preserving "subsequence of" relation that such a filter satisfies.
 */
module Seqs {

  /** `[f(x) for x in xs if keep(x)]`, defined by peeling off the last element,
      which is the order in which a scanning loop appends. */
  function FilterMap<A, B>(xs: seq<A>, keep: A -> bool, f: A -> B): (ys: seq<B>)
    ensures |ys| <= |xs|
  {
    if xs == [] then []
    else FilterMap(xs[..|xs| - 1], keep, f) + (if keep(xs[|xs| - 1]) then [f(xs[|xs| - 1])] else [])
  }

  /** `[f(x) for x in xs]`. */
  function Map<A, B>(xs: seq<A>, f: A -> B): (ys: seq<B>)
    ensures |ys| == |xs|
    ensures forall i :: 0 <= i < |xs| ==> ys[i] == f(xs[i])
  {
    seq(|xs|, i requires 0 <= i < |xs| => f(xs[i]))
  }

  /** `a` is an initial segment of `b`. */
  ghost predicate IsPrefix<T>(a: seq<T>, b: seq<T>) {
    |a| <= |b| && b[..|a|] == a
  }

  /** `idx` picks the elements of `xs` out of `ys` at strictly increasing positions. */
  ghost predicate Embeds<T>(idx: seq<int>, xs: seq<T>, ys: seq<T>) {
    && |idx| == |xs|
    && (forall k :: 0 <= k < |idx| ==> 0 <= idx[k] < |ys| && ys[idx[k]] == xs[k])
    && (forall k, l :: 0 <= k < l < |idx| ==> idx[k] < idx[l])
  }

  /** `xs` is obtained from `ys` by deleting elements, without reordering. */
  ghost predicate IsSubsequence<T>(xs: seq<T>, ys: seq<T>) {
    exists idx :: Embeds(idx, xs, ys)
  }

  /** Appending the same element to both sides keeps an embedding. */
  lemma EmbedsSnoc<T>(idx: seq<int>, xs: seq<T>, ys: seq<T>, y: T)
    requires Embeds(idx, xs, ys)
    ensures Embeds(idx + [|ys|], xs + [y], ys + [y])
  {
  }

  /** Growing the larger side at its end keeps an embedding. */
  lemma EmbedsExtend<T>(idx: seq<int>, xs: seq<T>, ys: seq<T>, more: seq<T>)
    requires Embeds(idx, xs, ys)
    ensures Embeds(idx, xs, ys + more)
  {
  }

  /** A filtered projection lists the kept elements in their original order. */
  lemma {:induction false} FilterMapIsSubsequence<A, B>(xs: seq<A>, keep: A -> bool, f: A -> B)
    ensures IsSubsequence(FilterMap(xs, keep, f), Map(xs, f))
    decreases |xs|
  {
    if xs == [] {
      assert Embeds([], FilterMap(xs, keep, f), Map(xs, f));
    } else {
      var init, last := xs[..|xs| - 1], xs[|xs| - 1];
      FilterMapIsSubsequence(init, keep, f);
      var idx :| Embeds(idx, FilterMap(init, keep, f), Map(init, f));
      assert Map(xs, f) == Map(init, f) + [f(last)];
      if keep(last) {
        EmbedsSnoc(idx, FilterMap(init, keep, f), Map(init, f), f(last));
        assert Embeds(idx + [|Map(init, f)|], FilterMap(xs, keep, f), Map(xs, f));
      } else {
        EmbedsExtend(idx, FilterMap(init, keep, f), Map(init, f), [f(last)]);
        assert Embeds(idx, FilterMap(xs, keep, f), Map(xs, f));
      }
    }
  }

  /** Filtering a prefix of the input yields a prefix of the output. */
  lemma {:induction false} FilterMapPrefix<A, B>(xs: seq<A>, j: nat, keep: A -> bool, f: A -> B)
    requires j <= |xs|
    ensures IsPrefix(FilterMap(xs[..j], keep, f), FilterMap(xs, keep, f))
    decreases |xs|
  {
    if j == |xs| {
      assert xs[..j] == xs;
    } else {
      var init := xs[..|xs| - 1];
      assert init[..j] == xs[..j];
      FilterMapPrefix(init, j, keep, f);
    }
  }

  /** An element is produced exactly when some kept input element projects to it. */
  lemma {:induction false} FilterMapMembership<A, B>(xs: seq<A>, keep: A -> bool, f: A -> B, y: B)
    ensures y in FilterMap(xs, keep, f) <==> exists i :: 0 <= i < |xs| && keep(xs[i]) && y == f(xs[i])
    decreases |xs|
  {
    if xs != [] {
      var init, last := xs[..|xs| - 1], xs[|xs| - 1];
      FilterMapMembership(init, keep, f, y);
      if y in FilterMap(xs, keep, f) && y !in FilterMap(init, keep, f) {
        assert keep(xs[|xs| - 1]) && y == f(xs[|xs| - 1]);
      }
      if exists i :: 0 <= i < |xs| && keep(xs[i]) && y == f(xs[i]) {
        var i :| 0 <= i < |xs| && keep(xs[i]) && y == f(xs[i]);
        if i < |init| {
          assert init[i] == xs[i];
        }
      }
    }
  }

  /** Keeping fewer elements (`keep2` implies `keep1` on the input) gives a subsequence. */
  lemma {:induction false} FilterMapNarrower<A, B>(xs: seq<A>, keep1: A -> bool, keep2: A -> bool, f: A -> B)
    requires forall i :: 0 <= i < |xs| && keep2(xs[i]) ==> keep1(xs[i])
    ensures IsSubsequence(FilterMap(xs, keep2, f), FilterMap(xs, keep1, f))
    decreases |xs|
  {
    if xs == [] {
      assert Embeds([], FilterMap(xs, keep2, f), FilterMap(xs, keep1, f));
    } else {
      var init, last := xs[..|xs| - 1], xs[|xs| - 1];
      assert forall i :: 0 <= i < |init| ==> init[i] == xs[i];
      FilterMapNarrower(init, keep1, keep2, f);
      var narrow, wide := FilterMap(init, keep2, f), FilterMap(init, keep1, f);
      var idx :| Embeds(idx, narrow, wide);
      if keep2(last) {
        assert keep1(xs[|xs| - 1]);
        EmbedsSnoc(idx, narrow, wide, f(last));
        assert Embeds(idx + [|wide|], FilterMap(xs, keep2, f), FilterMap(xs, keep1, f));
      } else if keep1(last) {
        EmbedsExtend(idx, narrow, wide, [f(last)]);
        assert Embeds(idx, FilterMap(xs, keep2, f), FilterMap(xs, keep1, f));
      } else {
        assert Embeds(idx, FilterMap(xs, keep2, f), FilterMap(xs, keep1, f));
      }
    }
  }

  /** A prefix is a subsequence. */
  lemma PrefixIsSubsequence<T>(a: seq<T>, b: seq<T>)
    requires IsPrefix(a, b)
    ensures IsSubsequence(a, b)
  {
    var idx := seq(|a|, k => k);
    assert Embeds(idx, a, b);
  }

  /** "Is a subsequence of" is transitive: compose the two embeddings. */
  lemma SubsequenceTransitive<T>(a: seq<T>, b: seq<T>, c: seq<T>)
    requires IsSubsequence(a, b) && IsSubsequence(b, c)
    ensures IsSubsequence(a, c)
  {
    var ab :| Embeds(ab, a, b);
    var bc :| Embeds(bc, b, c);
    var ac := seq(|ab|, k requires 0 <= k < |ab| => bc[ab[k]]);
    assert Embeds(ac, a, c);
  }
}
