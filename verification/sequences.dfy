/** Order-preserving selection from a sequence, and the slicing and
    concatenation facts the other modules use. */
module Sequences {

  /** `xs` can be obtained from `ys` by deleting elements: the elements of
      `xs` occur in `ys` in the same relative order. */
  predicate IsSubsequence<T(==)>(xs: seq<T>, ys: seq<T>)
    decreases |ys|
  {
    if |xs| == 0 then true
    else if |ys| == 0 then false
    else if xs[0] == ys[0] then IsSubsequence(xs[1..], ys[1..])
    else IsSubsequence(xs, ys[1..])
  }

  lemma {:induction false} SubsequenceOfTail<T>(xs: seq<T>, y: T, ys: seq<T>)
    requires IsSubsequence(xs, ys)
    ensures IsSubsequence(xs, [y] + ys)
    decreases |ys|, 1
  {
    assert ([y] + ys)[1..] == ys;
    if |xs| > 0 && xs[0] == y {
      SubsequenceDropFront(xs, ys);
    }
  }

  lemma {:induction false} SubsequenceDropFront<T>(xs: seq<T>, ys: seq<T>)
    requires |xs| > 0 && IsSubsequence(xs, ys)
    ensures IsSubsequence(xs[1..], ys)
    decreases |ys|, 0
  {
    if xs[0] != ys[0] {
      SubsequenceDropFront(xs, ys[1..]);
      SubsequenceOfTail(xs[1..], ys[0], ys[1..]);
      assert [ys[0]] + ys[1..] == ys;
    } else {
      SubsequenceOfTail(xs[1..], ys[0], ys[1..]);
      assert [ys[0]] + ys[1..] == ys;
    }
  }

  lemma SubsequenceCons<T>(x: T, xs: seq<T>, ys: seq<T>)
    requires IsSubsequence(xs, ys)
    ensures IsSubsequence([x] + xs, [x] + ys)
  {
    assert ([x] + xs)[1..] == xs;
    assert ([x] + ys)[1..] == ys;
  }

  lemma AppendAssoc<T>(a: seq<T>, b: seq<T>, c: seq<T>)
    ensures a + (b + c) == (a + b) + c
  {
  }

  /** Slicing a concatenation at a point inside its left part. */
  lemma SliceAppend<T>(x: seq<T>, y: seq<T>, n: nat)
    requires n <= |x|
    ensures (x + y)[..n] == x[..n]
    ensures (x + y)[n..] == x[n..] + y
  {
  }

  /** A sequence is its part before `n`, its element at `n` and the rest. */
  lemma SliceAround<T>(s: seq<T>, n: nat)
    requires n < |s|
    ensures s == s[..n] + ([s[n]] + s[n + 1..])
  {
  }

  /** A suffix splits at any later point. */
  lemma SliceSplit<T>(s: seq<T>, a: nat, b: nat)
    requires a <= b <= |s|
    ensures s[a..] == s[a..b] + s[b..]
  {
  }
}
