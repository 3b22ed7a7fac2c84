/** Toggle operations on collections of identifiers. The frontend keeps two
    kinds: an insertion-ordered set (a JavaScript `Set`, or an array used as
    one) where toggling removes the id if present and appends it otherwise,
    and a plain set whose order is never observed. */
module Toggles {
  import opened Sequences

  /** Identifiers are strings: stage ids and file ids alike. */
  type Id = string

  /** No element occurs twice. */
  predicate NoDup(xs: seq<Id>) {
    forall i, j :: 0 <= i < j < |xs| ==> xs[i] != xs[j]
  }

  /** `xs` with every occurrence of `x` removed, the rest in order
      (JavaScript `xs.filter(p => p !== x)`). */
  function Without(xs: seq<Id>, x: Id): (r: seq<Id>)
    ensures x !in r
    ensures forall y :: y != x ==> (y in r <==> y in xs)
    ensures |r| <= |xs|
    ensures x !in xs ==> r == xs
  {
    if |xs| == 0 then []
    else (if xs[0] == x then [] else [xs[0]]) + Without(xs[1..], x)
  }

  lemma {:induction false} WithoutAppend(xs: seq<Id>, ys: seq<Id>, x: Id)
    ensures Without(xs + ys, x) == Without(xs, x) + Without(ys, x)
    decreases |xs|
  {
    if |xs| > 0 {
      var t := xs[1..];
      var h := if xs[0] == x then [] else [xs[0]];
      assert Without(xs + ys, x) == h + Without(t + ys, x) by {
        SliceAppend(xs, ys, 1);
        assert (xs + ys)[0] == xs[0];
      }
      assert Without(t + ys, x) == Without(t, x) + Without(ys, x) by {
        WithoutAppend(t, ys, x);
      }
      AppendAssoc(h, Without(t, x), Without(ys, x));
    } else {
      assert xs + ys == ys;
    }
  }

  lemma {:induction false} WithoutKeepsNoDup(xs: seq<Id>, x: Id)
    requires NoDup(xs)
    ensures NoDup(Without(xs, x))
    decreases |xs|
  {
    if |xs| > 0 {
      WithoutKeepsNoDup(xs[1..], x);
      assert xs[0] !in xs[1..];
    }
  }

  /** The insertion-ordered toggle: remove `x` if present, else append it. */
  function Toggle(xs: seq<Id>, x: Id): (r: seq<Id>)
    ensures x in r <==> x !in xs
    ensures forall y :: y != x ==> (y in r <==> y in xs)
    ensures x !in xs ==> r == xs + [x]
  {
    if x in xs then Without(xs, x) else xs + [x]
  }

  /** Every element other than `x` keeps its relative order. */
  lemma ToggleKeepsOthersInOrder(xs: seq<Id>, x: Id)
    ensures Without(Toggle(xs, x), x) == Without(xs, x)
  {
    if x !in xs {
      WithoutAppend(xs, [x], x);
      assert Without([x], x) == [];
    }
  }

  /** Toggling an absent id twice gives back exactly the original sequence. */
  lemma ToggleTwiceAbsent(xs: seq<Id>, x: Id)
    requires x !in xs
    ensures Toggle(Toggle(xs, x), x) == xs
  {
    WithoutAppend(xs, [x], x);
    assert Without([x], x) == [];
  }

  /** Toggling a present id twice gives back the same members (the id moves
      to the end of the insertion order). */
  lemma ToggleTwicePresent(xs: seq<Id>, x: Id)
    requires x in xs
    ensures forall y :: y in Toggle(Toggle(xs, x), x) <==> y in xs
    ensures Toggle(Toggle(xs, x), x) == Without(xs, x) + [x]
  {
  }

  /** A duplicate-free sequence stays duplicate-free. */
  lemma ToggleKeepsNoDup(xs: seq<Id>, x: Id)
    requires NoDup(xs)
    ensures NoDup(Toggle(xs, x))
  {
    if x in xs {
      WithoutKeepsNoDup(xs, x);
    }
  }

  /** The unordered toggle on a set. */
  function ToggleSet(s: set<Id>, x: Id): (r: set<Id>)
    ensures x in r <==> x !in s
    ensures forall y :: y != x ==> (y in r <==> y in s)
  {
    if x in s then s - {x} else s + {x}
  }

  lemma ToggleSetTwice(s: set<Id>, x: Id)
    ensures ToggleSet(ToggleSet(s, x), x) == s
  {
  }
}
