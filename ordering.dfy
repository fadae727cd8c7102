/**
 * Descending order by a rational key. The planner sorts records by age and
 * strain groups by mean age (a float in the source); a mean is kept here as
 * the pair (sum, count) and two means are compared by cross-multiplying.
 * The sort is an insertion sort, which keeps ties in input order; the
 * source's sort is not stable, so only what holds of every descending
 * arrangement (its order and its being a permutation) is promised.
 */
module Ordering {

  /** The rational number `num / den`; `den` is positive wherever it is compared. */
  datatype Fraction = Fraction(num: int, den: int)

  /** `a >= b` for fractions with positive denominators. */
  predicate AtLeast(a: Fraction, b: Fraction) {
    a.num * b.den >= b.num * a.den
  }

  lemma {:induction false} MulMonotone(x: int, y: int, k: int)
    requires x >= y && k > 0
    ensures x * k >= y * k
  {
    assert x * k - y * k == (x - y) * k;
  }

  lemma {:induction false} MulCancel(x: int, y: int, k: int)
    requires x * k >= y * k && k > 0
    ensures x >= y
  {
    assert (x - y) * k >= 0 by {
      assert x * k - y * k == (x - y) * k;
    }
  }

  /** Comparing by cross-multiplication is transitive when denominators are positive. */
  lemma {:induction false} AtLeastTransitive(a: Fraction, b: Fraction, c: Fraction)
    requires a.den > 0 && b.den > 0 && c.den > 0
    requires AtLeast(a, b) && AtLeast(b, c)
    ensures AtLeast(a, c)
  {
    MulMonotone(a.num * b.den, b.num * a.den, c.den);
    MulMonotone(b.num * c.den, c.num * b.den, a.den);
    assert a.num * b.den * c.den >= b.num * a.den * c.den;
    assert b.num * a.den * c.den == b.num * c.den * a.den;
    assert c.num * b.den * a.den == c.num * a.den * b.den;
    assert a.num * b.den * c.den == a.num * c.den * b.den;
    MulCancel(a.num * c.den, c.num * a.den, b.den);
  }

  predicate PositiveKeys<T(==)>(s: seq<T>, key: T -> Fraction) {
    forall x <- s :: key(x).den > 0
  }

  /** Each element's key is at least the key of every later element. */
  predicate NonIncreasing<T>(s: seq<T>, key: T -> Fraction) {
    forall i, j | 0 <= i < j < |s| :: AtLeast(key(s[i]), key(s[j]))
  }

  /** Inserts `x` before the first element whose key it reaches. */
  function Insert<T(==)>(x: T, s: seq<T>, key: T -> Fraction): (r: seq<T>)
    requires key(x).den > 0 && PositiveKeys(s, key) && NonIncreasing(s, key)
    ensures multiset(r) == multiset(s) + multiset{x}
    ensures NonIncreasing(r, key)
    decreases |s|
  {
    if s == [] then [x]
    else if AtLeast(key(x), key(s[0])) then
      HeadDominates(x, s, key);
      NonIncreasingCons(x, s, key);
      [x] + s
    else
      assert s == [s[0]] + s[1..];
      var rest := Insert(x, s[1..], key);
      TailBelow(s[0], x, s[1..], rest, key);
      NonIncreasingCons(s[0], rest, key);
      [s[0]] + rest
  }

  /** An element reaching the head of a non-increasing sequence reaches all of it. */
  lemma HeadDominates<T>(x: T, s: seq<T>, key: T -> Fraction)
    requires |s| > 0 && key(x).den > 0 && key(s[0]).den > 0
    requires NonIncreasing(s, key) && AtLeast(key(x), key(s[0]))
    requires forall j | 0 <= j < |s| :: key(s[j]).den > 0
    ensures forall j | 0 <= j < |s| :: AtLeast(key(x), key(s[j]))
  {
    forall j | 0 < j < |s|
      ensures AtLeast(key(x), key(s[j]))
    {
      AtLeastTransitive(key(x), key(s[0]), key(s[j]));
    }
  }

  /**
   * After inserting `x` into the tail of a non-increasing sequence, the head
   * `h` still reaches every element, `x` included, since `x` did not reach `h`.
   */
  lemma TailBelow<T>(h: T, x: T, t: seq<T>, rest: seq<T>, key: T -> Fraction)
    requires key(x).den > 0 && key(h).den > 0 && !AtLeast(key(x), key(h))
    requires forall j | 0 <= j < |t| :: AtLeast(key(h), key(t[j]))
    requires multiset(rest) == multiset(t) + multiset{x}
    ensures forall j | 0 <= j < |rest| :: AtLeast(key(h), key(rest[j]))
  {
    forall j | 0 <= j < |rest|
      ensures AtLeast(key(h), key(rest[j]))
    {
      var y := rest[j];
      assert y in multiset(rest);
      if y != x {
        assert y in multiset(t);
        var i :| 0 <= i < |t| && t[i] == y;
      }
    }
  }

  /** A head whose key reaches every key of a non-increasing tail keeps it non-increasing. */
  lemma NonIncreasingCons<T>(h: T, t: seq<T>, key: T -> Fraction)
    requires NonIncreasing(t, key)
    requires forall j | 0 <= j < |t| :: AtLeast(key(h), key(t[j]))
    ensures NonIncreasing([h] + t, key)
  {
    var r := [h] + t;
    forall i, j | 0 <= i < j < |r|
      ensures AtLeast(key(r[i]), key(r[j]))
    {
      assert r[j] == t[j - 1];
      if i > 0 {
        assert r[i] == t[i - 1];
      }
    }
  }

  /** An insertion sort into non-increasing key order. */
  function SortDesc<T(==)>(s: seq<T>, key: T -> Fraction): (r: seq<T>)
    requires PositiveKeys(s, key)
    ensures multiset(r) == multiset(s)
    ensures NonIncreasing(r, key)
    decreases |s|
  {
    if s == [] then []
    else
      assert s == [s[0]] + s[1..];
      var sortedRest := SortDesc(s[1..], key);
      assert forall y <- sortedRest :: key(y).den > 0 by {
        forall y <- sortedRest
          ensures key(y).den > 0
        {
          assert y in multiset(sortedRest);
        }
      }
      Insert(s[0], sortedRest, key)
  }

  /** No element occurs twice. */
  predicate Distinct<T(==)>(s: seq<T>) {
    forall i, j | 0 <= i < j < |s| :: s[i] != s[j]
  }

  lemma {:induction false} DistinctMultiplicity<T>(s: seq<T>, x: T)
    requires Distinct(s)
    ensures multiset(s)[x] <= 1
    decreases |s|
  {
    if s != [] {
      var init := s[..|s| - 1];
      assert s == init + [s[|s| - 1]];
      DistinctMultiplicity(init, x);
      if x == s[|s| - 1] {
        assert x !in init;
      }
    }
  }

  /** A rearrangement of a sequence without repeats has no repeats. */
  lemma {:induction false} PermutationKeepsDistinct<T>(a: seq<T>, b: seq<T>)
    requires multiset(a) == multiset(b) && Distinct(b)
    ensures Distinct(a)
  {
    forall i, j | 0 <= i < j < |a|
      ensures a[i] != a[j]
    {
      if a[i] == a[j] {
        var x := a[i];
        assert a == a[..j] + a[j..];
        assert x in a[..j];
        assert a[j..][0] == x;
        assert multiset(a[..j])[x] >= 1 && multiset(a[j..])[x] >= 1;
        DistinctMultiplicity(b, x);
        assert false;
      }
    }
  }

  /** A sequence without repeats has as many elements as the set of its elements. */
  lemma {:induction false} DistinctSetSize<T>(s: seq<T>, elems: set<T>)
    requires Distinct(s)
    requires forall x :: x in s <==> x in elems
    ensures |s| == |elems|
    decreases |s|
  {
    if s != [] {
      var init := s[..|s| - 1];
      var last := s[|s| - 1];
      assert s == init + [last];
      assert last !in init;
      assert last in elems;
      forall x
        ensures x in init <==> x in elems - {last}
      {
        if x in init {
          var k :| 0 <= k < |init| && init[k] == x;
          assert s[k] == x;
        }
      }
      DistinctSetSize(init, elems - {last});
    }
  }
}
