/** Sums and arithmetic means over finite sequences of reals, as NumPy's
    `sum` and `mean` compute them (exactly, without floating-point rounding). */
module Stats {

  function Sum(xs: seq<real>): real {
    if xs == [] then 0.0 else xs[0] + Sum(xs[1..])
  }

  /** `np.mean(xs)` for a non-empty sequence. */
  function Mean(xs: seq<real>): real
    requires xs != []
  {
    Sum(xs) / |xs| as real
  }

  function Square(x: real): real {
    x * x
  }

  /** The element-wise square `xs ** 2`. */
  function Squares(xs: seq<real>): (r: seq<real>)
    ensures |r| == |xs|
    ensures forall k :: 0 <= k < |xs| ==> r[k] == Square(xs[k])
  {
    if xs == [] then [] else [Square(xs[0])] + Squares(xs[1..])
  }

  lemma SquareZeroIff(x: real)
    requires x >= 0.0
    ensures Square(x) >= 0.0 && (Square(x) == 0.0 <==> x == 0.0)
  {
    assert Square(0.0) == 0.0;
    if x > 0.0 {
      SquareBelow(0.0, x);
    }
  }

  lemma SquareBelow(x: real, t: real)
    requires 0.0 <= x < t
    ensures 0.0 <= Square(x) < Square(t)
  {
    var d := t - x;
    assert t * t == (x + d) * (x + d);
    assert (x + d) * (x + d) == x * x + 2.0 * x * d + d * d;
    assert d * d > 0.0;
    assert x * d >= 0.0;
  }

  lemma SquareAtLeast(x: real, t: real)
    requires 0.0 < t <= x
    ensures Square(x) >= Square(t)
  {
    var d := x - t;
    assert x * x == (t + d) * (t + d);
    assert (t + d) * (t + d) == t * t + 2.0 * t * d + d * d;
    assert d * d >= 0.0;
    assert t * d >= 0.0;
  }

  lemma RatioAboveOne(a: real, b: real)
    requires a > b > 0.0
    ensures a / b > 1.0
  {
  }

  lemma {:induction false} SumAtLeast(xs: seq<real>, c: real)
    requires forall k :: 0 <= k < |xs| ==> xs[k] >= c
    ensures Sum(xs) >= c * |xs| as real
  {
    if xs != [] {
      SumAtLeast(xs[1..], c);
    }
  }

  lemma {:induction false} SumAbove(xs: seq<real>, c: real)
    requires xs != []
    requires forall k :: 0 <= k < |xs| ==> xs[k] > c
    ensures Sum(xs) > c * |xs| as real
  {
    SumAtLeast(xs[1..], c);
  }

  lemma {:induction false} SumBelow(xs: seq<real>, c: real)
    requires xs != []
    requires forall k :: 0 <= k < |xs| ==> xs[k] < c
    ensures Sum(xs) < c * |xs| as real
  {
    if |xs| > 1 {
      SumBelow(xs[1..], c);
    }
  }

  /** The mean of values all above `c` is above `c`. */
  lemma MeanAbove(xs: seq<real>, c: real)
    requires xs != []
    requires forall k :: 0 <= k < |xs| ==> xs[k] > c
    ensures Mean(xs) > c
  {
    SumAbove(xs, c);
  }

  /** The mean times the count gives back the sum. */
  lemma MeanTimesCount(xs: seq<real>)
    requires xs != []
    ensures Mean(xs) * |xs| as real == Sum(xs)
  {
    var n := |xs| as real;
    assert n > 0.0;
    assert (Sum(xs) / n) * n == Sum(xs);
  }

  /** A count and mean that are zero for no values, or the length and mean
      of the values, multiply back to their sum. */
  lemma CountTimesMean(count: nat, mean: real, xs: seq<real>)
    requires (count == 0 && mean == 0.0 && xs == []) || (xs != [] && count == |xs| && mean == Mean(xs))
    ensures mean * count as real == Sum(xs)
  {
    if xs != [] {
      MeanTimesCount(xs);
    }
  }

  /** The mean of values all at least `c` is at least `c`. */
  lemma MeanAtLeast(xs: seq<real>, c: real)
    requires xs != []
    requires forall k :: 0 <= k < |xs| ==> xs[k] >= c
    ensures Mean(xs) >= c
  {
    SumAtLeast(xs, c);
  }

  /** The mean of values all below `c` is below `c`. */
  lemma MeanBelow(xs: seq<real>, c: real)
    requires xs != []
    requires forall k :: 0 <= k < |xs| ==> xs[k] < c
    ensures Mean(xs) < c
  {
    SumBelow(xs, c);
  }

  /** A mean is zero exactly when the sum is. */
  lemma MeanZeroIff(xs: seq<real>)
    requires xs != []
    ensures Mean(xs) == 0.0 <==> Sum(xs) == 0.0
  {
  }

  /** A sum of non-negative values is zero exactly when every value is. */
  lemma {:induction false} SumZeroIff(xs: seq<real>)
    requires forall k :: 0 <= k < |xs| ==> xs[k] >= 0.0
    ensures Sum(xs) == 0.0 <==> forall k :: 0 <= k < |xs| ==> xs[k] == 0.0
  {
    if xs != [] {
      SumZeroIff(xs[1..]);
      SumAtLeast(xs[1..], 0.0);
      assert forall k :: 1 <= k < |xs| ==> xs[k] == xs[1..][k - 1];
    }
  }
}
