/** Generic list helpers: `Array.prototype.filter` and the subsequence relation. */
module Sequences {

  /** `xs.filter(p)`: the elements of `xs` that satisfy `p`, in their original order. */
  function Filter<T>(xs: seq<T>, p: T -> bool): (r: seq<T>)
    ensures |r| <= |xs|
    decreases |xs|
  {
    if xs == [] then []
    else Filter(xs[..|xs| - 1], p) + (if p(xs[|xs| - 1]) then [xs[|xs| - 1]] else [])
  }

  /** `idx` lists, in strictly increasing order, positions of `ys` that spell out `xs`. */
  ghost predicate Embeds<T>(idx: seq<nat>, xs: seq<T>, ys: seq<T>) {
    && |idx| == |xs|
    && (forall k :: 0 <= k < |idx| ==> idx[k] < |ys| && xs[k] == ys[idx[k]])
    && (forall k, l :: 0 <= k < l < |idx| ==> idx[k] < idx[l])
  }

  /** `xs` is obtained from `ys` by deleting elements, without reordering the rest. */
  ghost predicate IsSubsequence<T>(xs: seq<T>, ys: seq<T>) {
    exists idx: seq<nat> :: Embeds(idx, xs, ys)
  }

  /** An element is kept by `Filter` exactly when it occurs in the input and satisfies `p`. */
  lemma {:induction false} FilterMembership<T>(xs: seq<T>, p: T -> bool, x: T)
    ensures x in Filter(xs, p) <==> x in xs && p(x)
    decreases |xs|
  {
    if xs != [] {
      var init, last := xs[..|xs| - 1], xs[|xs| - 1];
      assert xs == init + [last];
      FilterMembership(init, p, x);
    }
  }

  /** Every element of the result satisfies `p`. */
  lemma FilterAllSatisfy<T>(xs: seq<T>, p: T -> bool)
    ensures forall k :: 0 <= k < |Filter(xs, p)| ==> p(Filter(xs, p)[k])
  {
    forall k | 0 <= k < |Filter(xs, p)|
      ensures p(Filter(xs, p)[k])
    {
      FilterMembership(xs, p, Filter(xs, p)[k]);
    }
  }

  /** `Filter` keeps the order of the elements it keeps. */
  lemma {:induction false} FilterIsSubsequence<T>(xs: seq<T>, p: T -> bool)
    ensures IsSubsequence(Filter(xs, p), xs)
    decreases |xs|
  {
    if xs == [] {
      assert Embeds([], Filter(xs, p), xs);
    } else {
      var init, last := xs[..|xs| - 1], xs[|xs| - 1];
      FilterIsSubsequence(init, p);
      var idx: seq<nat> :| Embeds(idx, Filter(init, p), init);
      if p(last) {
        var idx': seq<nat> := idx + [|init|];
        assert Filter(xs, p) == Filter(init, p) + [last];
        assert Embeds(idx', Filter(xs, p), xs);
      } else {
        assert Embeds(idx, Filter(xs, p), xs);
      }
    }
  }

  /** A predicate that holds of every element keeps the whole sequence. */
  lemma {:induction false} FilterKeepsAll<T>(xs: seq<T>, p: T -> bool)
    requires forall k :: 0 <= k < |xs| ==> p(xs[k])
    ensures Filter(xs, p) == xs
    decreases |xs|
  {
    if xs != [] {
      var init := xs[..|xs| - 1];
      FilterKeepsAll(init, p);
      assert xs == init + [xs[|xs| - 1]];
    }
  }

  /** A predicate that holds of no element keeps nothing. */
  lemma {:induction false} FilterKeepsNone<T>(xs: seq<T>, p: T -> bool)
    requires forall k :: 0 <= k < |xs| ==> !p(xs[k])
    ensures Filter(xs, p) == []
    decreases |xs|
  {
    if xs != [] {
      FilterKeepsNone(xs[..|xs| - 1], p);
    }
  }

  /** Filtering a concatenation filters each part. */
  lemma {:induction false} FilterAppend<T>(xs: seq<T>, ys: seq<T>, p: T -> bool)
    ensures Filter(xs + ys, p) == Filter(xs, p) + Filter(ys, p)
    decreases |ys|
  {
    if ys == [] {
      assert xs + ys == xs;
    } else {
      var init := ys[..|ys| - 1];
      assert (xs + ys)[..|xs + ys| - 1] == xs + init;
      FilterAppend(xs, init, p);
    }
  }

  /** A one-element sequence is kept or dropped whole. */
  lemma FilterOne<T>(x: T, p: T -> bool)
    ensures Filter([x], p) == if p(x) then [x] else []
  {
    assert [x][..0] == [];
  }

  /** A predicate that holds of exactly one element keeps just that element. */
  lemma FilterSingle<T>(xs: seq<T>, p: T -> bool, i: nat)
    requires i < |xs| && p(xs[i])
    requires forall k :: 0 <= k < |xs| && k != i ==> !p(xs[k])
    ensures Filter(xs, p) == [xs[i]]
  {
    var before, after := xs[..i], xs[i + 1..];
    forall k | 0 <= k < |before|
      ensures !p(before[k])
    {
      assert before[k] == xs[k];
    }
    forall k | 0 <= k < |after|
      ensures !p(after[k])
    {
      assert after[k] == xs[i + 1 + k];
    }
    FilterKeepsNone(before, p);
    FilterKeepsNone(after, p);
    FilterOne(xs[i], p);
    FilterAppend(before, [xs[i]], p);
    FilterAppend(before + [xs[i]], after, p);
    SplitAt(xs, i);
  }

  lemma SplitAt<T>(xs: seq<T>, i: nat)
    requires i < |xs|
    ensures xs == xs[..i] + [xs[i]] + xs[i + 1..]
  {
  }

  /** Removing position `i` removes one copy of `xs[i]` from the multiset. */
  lemma RemoveAt<T>(xs: seq<T>, i: nat)
    requires i < |xs|
    ensures multiset(xs) == multiset(xs[..i] + xs[i + 1..]) + multiset{xs[i]}
  {
    SplitAt(xs, i);
  }

  /** The elements after a removed position move down by one. */
  lemma RemoveAtIndex<T>(xs: seq<T>, i: nat, k: nat)
    requires i < |xs| && k < |xs| - 1
    ensures (xs[..i] + xs[i + 1..])[k] == if k < i then xs[k] else xs[k + 1]
  {
  }
}
