/** The degree-1 least-squares fit the trend monitors take of their price
    history (`np.polyfit(range(n), history, 1)`), reduced to the slope the
    monitors read: the covariance of position and price over the variance
    of the positions 0 .. n-1. Computed on exact reals. */
module LinearFit {
  import opened Common

  /** The sum over the points of (i - c) * (h[i] - m). */
  function Cov(h: seq<real>, c: real, m: real): real
    decreases |h|
  {
    if |h| == 0 then 0.0
    else Cov(h[..|h| - 1], c, m) + ((|h| - 1) as real - c) * (h[|h| - 1] - m)
  }

  /** The sum over the positions 0 .. n-1 of (i - c)^2. */
  function Var(n: nat, c: real): real {
    if n == 0 then 0.0 else Var(n - 1, c) + ((n - 1) as real - c) * ((n - 1) as real - c)
  }

  /** The mean of the positions 0 .. n-1. */
  function MidPosition(n: nat): real {
    (n as real - 1.0) / 2.0
  }

  /** Two or more distinct positions always spread: the variance is
      positive, so the slope is defined. */
  lemma {:induction false} VarPositive(n: nat, c: real)
    requires n >= 2
    ensures Var(n, c) > 0.0
  {
    if n == 2 {
      assert Var(1, c) == (0.0 - c) * (0.0 - c);
      assert Var(2, c) == Var(1, c) + (1.0 - c) * (1.0 - c);
      if c == 0.0 {
        assert Var(1, c) == 0.0;
      } else {
        SquarePositive(0.0 - c);
        SquareNonNegative(1.0 - c);
      }
    } else {
      VarPositive(n - 1, c);
      SquareNonNegative((n - 1) as real - c);
    }
  }

  lemma SquarePositive(x: real)
    requires x != 0.0
    ensures x * x > 0.0
  {
  }

  lemma SquareNonNegative(x: real)
    ensures x * x >= 0.0
  {
  }

  /** The slope k of the least-squares line through (i, h[i]). */
  function Slope(h: seq<real>): (k: real)
    requires |h| >= 2
  {
    VarPositive(|h|, MidPosition(|h|));
    Cov(h, MidPosition(|h|), Mean(h)) / Var(|h|, MidPosition(|h|))
  }

  /** Prices on the straight line a + b * i. */
  ghost predicate OnLine(h: seq<real>, a: real, b: real) {
    forall i :: 0 <= i < |h| ==> h[i] == a + b * i as real
  }

  lemma {:induction false} SumOfLine(h: seq<real>, a: real, b: real)
    requires OnLine(h, a, b)
    ensures Sum(h) == |h| as real * a + b * (|h| as real * (|h| as real - 1.0) / 2.0)
    decreases |h|
  {
    if |h| > 0 {
      var init := h[..|h| - 1];
      var k := (|h| - 1) as real;
      assert OnLine(init, a, b) by {
        forall i | 0 <= i < |init| ensures init[i] == a + b * i as real {
          assert init[i] == h[i];
        }
      }
      SumOfLine(init, a, b);
      assert h[|h| - 1] == a + b * k;
      assert k * (k - 1.0) / 2.0 + k == (k + 1.0) * k / 2.0;
    }
  }

  /** The mean price of a line sits at its middle position. */
  lemma MeanOfLine(h: seq<real>, a: real, b: real)
    requires |h| > 0 && OnLine(h, a, b)
    ensures Mean(h) == a + b * MidPosition(|h|)
  {
    SumOfLine(h, a, b);
    var n := |h| as real;
    assert n * a + b * (n * (n - 1.0) / 2.0) == n * (a + b * ((n - 1.0) / 2.0));
  }

  lemma {:induction false} CovOfLine(h: seq<real>, a: real, b: real, c: real)
    requires OnLine(h, a, b)
    ensures Cov(h, c, a + b * c) == b * Var(|h|, c)
    decreases |h|
  {
    if |h| > 0 {
      var init := h[..|h| - 1];
      var k := (|h| - 1) as real;
      assert OnLine(init, a, b) by {
        forall i | 0 <= i < |init| ensures init[i] == a + b * i as real {
          assert init[i] == h[i];
        }
      }
      CovOfLine(init, a, b, c);
      assert h[|h| - 1] - (a + b * c) == b * (k - c);
      assert (k - c) * (b * (k - c)) == b * ((k - c) * (k - c));
    }
  }

  /** The fit recovers the slope of prices that lie on a straight line;
      in particular a flat run of prices has slope 0. */
  lemma SlopeOfLine(h: seq<real>, a: real, b: real)
    requires |h| >= 2 && OnLine(h, a, b)
    ensures Slope(h) == b
  {
    var c := MidPosition(|h|);
    MeanOfLine(h, a, b);
    CovOfLine(h, a, b, c);
    VarPositive(|h|, c);
  }

  /** Shifting every price by the same amount does not change the slope. */
  lemma SlopeShift(h: seq<real>, d: real)
    requires |h| >= 2
    ensures Slope(seq(|h|, i requires 0 <= i < |h| => h[i] + d)) == Slope(h)
  {
    var g := seq(|h|, i requires 0 <= i < |h| => h[i] + d);
    var c := MidPosition(|h|);
    SumShift(h, d);
    assert Mean(g) == Mean(h) + d by {
      var n := |h| as real;
      assert Sum(g) == Sum(h) + n * d;
    }
    CovShift(h, g, d, c, Mean(h));
  }

  lemma {:induction false} SumShift(h: seq<real>, d: real)
    ensures Sum(seq(|h|, i requires 0 <= i < |h| => h[i] + d)) == Sum(h) + |h| as real * d
    decreases |h|
  {
    var g := seq(|h|, i requires 0 <= i < |h| => h[i] + d);
    if |h| > 0 {
      var init := h[..|h| - 1];
      SumShift(init, d);
      assert g[..|g| - 1] == seq(|init|, i requires 0 <= i < |init| => init[i] + d);
    }
  }

  lemma {:induction false} CovShift(h: seq<real>, g: seq<real>, d: real, c: real, m: real)
    requires |g| == |h| && forall i :: 0 <= i < |h| ==> g[i] == h[i] + d
    ensures Cov(g, c, m + d) == Cov(h, c, m)
    decreases |h|
  {
    if |h| > 0 {
      CovShift(h[..|h| - 1], g[..|g| - 1], d, c, m);
    }
  }
}
