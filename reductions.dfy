/**
 * Reference definitions of the reductions `CombineRaster` offers: product,
 * sum, maximum and minimum of a sequence of values, with the facts the
 * reducers rely on, among them that sum and product do not depend on the
 * order of the values.
 */
module Reductions {
  import opened ExtentRect

  function Product(s: seq<real>): real
  {
    if |s| == 0 then 1.0 else Product(s[..|s| - 1]) * s[|s| - 1]
  }

  function Sum(s: seq<real>): real
  {
    if |s| == 0 then 0.0 else Sum(s[..|s| - 1]) + s[|s| - 1]
  }

  function MaxOf(s: seq<real>): real
    requires |s| > 0
  {
    if |s| == 1 then s[0]
    else var m := MaxOf(s[..|s| - 1]); if s[|s| - 1] > m then s[|s| - 1] else m
  }

  function MinOf(s: seq<real>): real
    requires |s| > 0
  {
    if |s| == 1 then s[0]
    else var m := MinOf(s[..|s| - 1]); if s[|s| - 1] < m then s[|s| - 1] else m
  }

  /** `MaxOf` is one of the values and no value exceeds it. */
  lemma {:induction false} MaxOfIsMaximum(s: seq<real>)
    requires |s| > 0
    ensures MaxOf(s) in s
    ensures forall k :: 0 <= k < |s| ==> s[k] <= MaxOf(s)
  {
    if |s| > 1 {
      MaxOfIsMaximum(s[..|s| - 1]);
      assert forall k :: 0 <= k < |s| - 1 ==> s[k] == s[..|s| - 1][k];
    }
  }

  /** `MinOf` is one of the values and no value is below it. */
  lemma {:induction false} MinOfIsMinimum(s: seq<real>)
    requires |s| > 0
    ensures MinOf(s) in s
    ensures forall k :: 0 <= k < |s| ==> MinOf(s) <= s[k]
  {
    if |s| > 1 {
      MinOfIsMinimum(s[..|s| - 1]);
      assert forall k :: 0 <= k < |s| - 1 ==> s[k] == s[..|s| - 1][k];
    }
  }

  /** The sum lies between the count times the minimum and the count times the maximum. */
  lemma {:induction false} SumBetweenBounds(s: seq<real>)
    requires |s| > 0
    ensures |s| as real * MinOf(s) <= Sum(s) <= |s| as real * MaxOf(s)
  {
    if |s| > 1 {
      var init, x := s[..|s| - 1], s[|s| - 1];
      var n := |init| as real;
      assert Sum(s) == Sum(init) + x;
      assert |s| as real == n + 1.0;
      SumBetweenBounds(init);
      BoundStep(n, MinOf(s), MinOf(init), Sum(init), x);
      BoundStep(n, -MaxOf(s), -MaxOf(init), -Sum(init), -x);
    }
  }

  /**
   * One step of the induction: a lower bound for n values that also bounds
   * a further value is, taken n + 1 times, below their total.
   */
  lemma BoundStep(n: real, lo: real, loInit: real, sum: real, x: real)
    requires n >= 0.0 && lo <= loInit && lo <= x && n * loInit <= sum
    ensures (n + 1.0) * lo <= sum + x
  {
    assert n * loInit - n * lo == n * (loInit - lo);
    assert (n + 1.0) * lo == n * lo + lo;
  }

  /** Removing the element at `k` from a sequence. */
  function RemoveAt(s: seq<real>, k: nat): seq<real>
    requires k < |s|
  {
    s[..k] + s[k + 1..]
  }

  /** Taking the last value off one side and a matching value off the other keeps two multisets equal. */
  lemma RemoveMatching(s: seq<real>, t: seq<real>, k: nat)
    requires multiset(s) == multiset(t) && |s| > 0 && k < |t| && t[k] == s[|s| - 1]
    ensures multiset(s[..|s| - 1]) == multiset(RemoveAt(t, k))
  {
    var x := s[|s| - 1];
    assert s == s[..|s| - 1] + [x];
    assert t == t[..k] + [x] + t[k + 1..];
    assert multiset(s[..|s| - 1]) == multiset(s) - multiset{x};
    assert multiset(RemoveAt(t, k)) == multiset(t) - multiset{x};
  }

  /** Combining a sequence from the left, starting from `z`. */
  function FoldLeft(f: (real, real) -> real, z: real, s: seq<real>): real
  {
    if |s| == 0 then z else f(FoldLeft(f, z, s[..|s| - 1]), s[|s| - 1])
  }

  /** The order in which two values are folded in does not matter. */
  ghost predicate RightCommutative(f: (real, real) -> real)
  {
    forall p, x, y :: f(f(p, x), y) == f(f(p, y), x)
  }

  function Add(a: real, b: real): real { a + b }
  function Mul(a: real, b: real): real { a * b }

  /** Taking the value at `k` out of a fold, to be folded in last. */
  lemma {:induction false} FoldRemoveAt(f: (real, real) -> real, z: real, t: seq<real>, k: nat)
    requires RightCommutative(f) && k < |t|
    ensures FoldLeft(f, z, t) == f(FoldLeft(f, z, RemoveAt(t, k)), t[k])
    decreases |t|
  {
    var t', y := t[..|t| - 1], t[|t| - 1];
    if k == |t| - 1 {
      assert RemoveAt(t, k) == t';
    } else {
      FoldRemoveAt(f, z, t', k);
      var r := RemoveAt(t', k);
      assert RemoveAt(t, k) == r + [y];
      assert (r + [y])[..|r + [y]| - 1] == r;
      assert t'[k] == t[k];
    }
  }

  /** A right-commutative fold does not depend on the order of the values. */
  lemma {:induction false} FoldPermutation(f: (real, real) -> real, z: real, s: seq<real>, t: seq<real>)
    requires RightCommutative(f) && multiset(s) == multiset(t)
    ensures FoldLeft(f, z, s) == FoldLeft(f, z, t)
    decreases |s|
  {
    if |s| > 0 {
      assert s[|s| - 1] in multiset(t);
      var k :| 0 <= k < |t| && t[k] == s[|s| - 1];
      RemoveMatching(s, t, k);
      FoldPermutation(f, z, s[..|s| - 1], RemoveAt(t, k));
      FoldRemoveAt(f, z, t, k);
    } else {
      assert |t| == |multiset(t)| == 0;
    }
  }

  lemma {:induction false} SumIsFold(s: seq<real>)
    ensures Sum(s) == FoldLeft(Add, 0.0, s)
  {
    if |s| > 0 {
      SumIsFold(s[..|s| - 1]);
    }
  }

  lemma {:induction false} ProductIsFold(s: seq<real>)
    ensures Product(s) == FoldLeft(Mul, 1.0, s)
  {
    if |s| > 0 {
      ProductIsFold(s[..|s| - 1]);
    }
  }

  lemma MulSwap(p: real, x: real, y: real)
    ensures (p * x) * y == (p * y) * x
  {
  }

  /** The sum does not depend on the order of the values. */
  lemma SumPermutation(s: seq<real>, t: seq<real>)
    requires multiset(s) == multiset(t)
    ensures Sum(s) == Sum(t)
  {
    assert RightCommutative(Add);
    FoldPermutation(Add, 0.0, s, t);
    SumIsFold(s);
    SumIsFold(t);
  }

  /** The product does not depend on the order of the values. */
  lemma ProductPermutation(s: seq<real>, t: seq<real>)
    requires multiset(s) == multiset(t)
    ensures Product(s) == Product(t)
  {
    forall p, x, y
      ensures Mul(Mul(p, x), y) == Mul(Mul(p, y), x)
    {
      MulSwap(p, x, y);
    }
    FoldPermutation(Mul, 1.0, s, t);
    ProductIsFold(s);
    ProductIsFold(t);
  }
}
