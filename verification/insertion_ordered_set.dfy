/**
 * Sequences read as insertion-ordered sets, the way a JavaScript `Set` built
 * from an array and spread back into one behaves: every value kept once, at
 * the position of its first insertion.
 */
module InsertionOrderedSet {

  /** No value occurs twice in `s`. */
  predicate Distinct<T(==)>(s: seq<T>)
  {
    forall i, j :: 0 <= i < j < |s| ==> s[i] != s[j]
  }

  /** The position of the first occurrence of `x` in `xs`. */
  function FirstIndex<T(==)>(xs: seq<T>, x: T): (k: nat)
    requires x in xs
    ensures k < |xs| && xs[k] == x
    ensures x !in xs[..k]
  {
    if xs[0] == x then 0
    else
      var k := 1 + FirstIndex(xs[1..], x);
      assert xs[..k] == [xs[0]] + xs[1..][..k - 1];
      k
  }

  /** A first-occurrence position is the only one: any `k` with `xs[k] == x`
      and no `x` before it is `FirstIndex(xs, x)`. */
  lemma FirstIndexUnique<T>(xs: seq<T>, x: T, k: nat)
    requires k < |xs| && xs[k] == x && x !in xs[..k]
    ensures FirstIndex(xs, x) == k
  {
  }

  /** Adding the values of `xs` one after the other to an initially empty
      insertion-ordered set: a value already present is skipped, a new one
      goes to the end. */
  function Unique<T(==,!new)>(xs: seq<T>): (r: seq<T>)
    ensures forall x :: x in r <==> x in xs
    ensures Distinct(r)
    ensures |r| <= |xs|
    decreases |xs|
  {
    if |xs| == 0 then []
    else
      var init := xs[..|xs| - 1];
      var last := xs[|xs| - 1];
      assert xs == init + [last];
      var seen := Unique(init);
      if last in seen then seen else seen + [last]
  }

  /** Inserting one more value: kept at the end when new, skipped when already present. */
  lemma UniqueSnoc<T(!new)>(xs: seq<T>, x: T)
    ensures Unique(xs + [x]) == if x in xs then Unique(xs) else Unique(xs) + [x]
  {
  }

  /** A duplicate-free list is its own `Unique`. */
  lemma {:induction false} UniqueOfDistinct<T(!new)>(xs: seq<T>)
    requires Distinct(xs)
    ensures Unique(xs) == xs
  {
    if |xs| > 0 {
      var init := xs[..|xs| - 1];
      assert xs == init + [xs[|xs| - 1]];
      UniqueOfDistinct(init);
    }
  }

  /** Inserting values that are all present already changes nothing. */
  lemma {:induction false} UniqueAppendPresent<T(!new)>(xs: seq<T>, ys: seq<T>)
    requires forall y :: y in ys ==> y in xs
    ensures Unique(xs + ys) == Unique(xs)
  {
    if |ys| == 0 {
      assert xs + ys == xs;
    } else {
      var init := ys[..|ys| - 1];
      var last := ys[|ys| - 1];
      assert ys == init + [last];
      assert xs + ys == (xs + init) + [last];
      UniqueAppendPresent(xs, init);
      UniqueSnoc(xs + init, last);
    }
  }

  /** The values of `Unique(xs)` come in the order of their first appearance in `xs`. */
  lemma {:induction false} UniqueFirstAppearanceOrder<T(!new)>(xs: seq<T>)
    ensures forall i, j :: 0 <= i < j < |Unique(xs)| ==>
              FirstIndex(xs, Unique(xs)[i]) < FirstIndex(xs, Unique(xs)[j])
    decreases |xs|
  {
    if |xs| > 0 {
      var init := xs[..|xs| - 1];
      var last := xs[|xs| - 1];
      assert xs == init + [last];
      var seen := Unique(init);
      UniqueFirstAppearanceOrder(init);
      forall x | x in init
        ensures FirstIndex(xs, x) == FirstIndex(init, x)
      {
        var k := FirstIndex(init, x);
        assert xs[..k] == init[..k];
        FirstIndexUnique(xs, x, k);
      }
      if last !in seen {
        assert last !in init;
        assert xs[..|xs| - 1] == init;
        FirstIndexUnique(xs, last, |xs| - 1);
      }
    }
  }

  /** A duplicate-free sequence has as many elements as the set of its values. */
  lemma {:induction false} DistinctCardinality<T>(s: seq<T>)
    requires Distinct(s)
    ensures |set x | x in s| == |s|
  {
    if |s| > 0 {
      var init := s[..|s| - 1];
      var last := s[|s| - 1];
      assert s == init + [last];
      DistinctCardinality(init);
      assert (set x | x in s) == (set x | x in init) + {last};
      assert last !in init;
    }
  }

  /** A value of a duplicate-free sequence occurs in it exactly once. */
  lemma {:induction false} DistinctOccursOnce<T>(s: seq<T>, x: T)
    requires Distinct(s)
    requires x in s
    ensures multiset(s)[x] == 1
  {
    var init := s[..|s| - 1];
    var last := s[|s| - 1];
    assert s == init + [last];
    if x == last {
      assert x !in init;
    } else {
      DistinctOccursOnce(init, x);
    }
  }

  /** `Unique(xs)` has one entry per distinct value of `xs`. */
  lemma UniqueCardinality<T(!new)>(xs: seq<T>)
    ensures |Unique(xs)| == |set x | x in xs|
  {
    DistinctCardinality(Unique(xs));
    assert (set x | x in Unique(xs)) == (set x | x in xs);
  }
}
