/** MACD signals over a k-line series: exponential moving averages, the
    DIF/DEA/histogram columns, golden/death and zero-line crosses, the
    "double cross" confirmation, price/indicator pivots with divergences,
    and the EMA(5)/EMA(10) cross. Columns are sequences indexed by row,
    oldest row first. */
module Macd {
  import opened Common

  // ---------------------------------------------------------------------
  // EMA: pandas `ewm(span, adjust=False).mean()`.
  // ---------------------------------------------------------------------

  /** The smoothing factor 2 / (span + 1) pandas derives from a span. */
  function Alpha(span: nat): (r: real)
    requires span >= 1
    ensures 0.0 < r <= 1.0
  {
    2.0 / (span as real + 1.0)
  }

  /** One smoothing step from the previous average `y` towards `x`. */
  function EmaStep(alpha: real, x: real, y: real): real {
    alpha * x + (1.0 - alpha) * y
  }

  /** y0 = x0 and y_t = alpha * x_t + (1 - alpha) * y_(t-1). */
  function Ema(xs: seq<real>, span: nat): (r: seq<real>)
    requires span >= 1
    ensures |r| == |xs|
    decreases |xs|
  {
    if |xs| == 0 then []
    else
      var prev := Ema(xs[..|xs| - 1], span);
      var x := xs[|xs| - 1];
      prev + [if |prev| == 0 then x else EmaStep(Alpha(span), x, prev[|prev| - 1])]
  }

  /** The EMA of a prefix is the prefix of the EMA: each row depends only
      on the rows before it. */
  lemma {:induction false} EmaPrefix(xs: seq<real>, span: nat, k: nat)
    requires span >= 1 && k <= |xs|
    ensures Ema(xs[..k], span) == Ema(xs, span)[..k]
    decreases |xs|
  {
    if k < |xs| {
      var init := xs[..|xs| - 1];
      EmaPrefix(init, span, k);
      assert init[..k] == xs[..k];
    } else {
      assert xs[..k] == xs;
    }
  }

  /** The recurrence pandas documents for `adjust=False`, row by row. */
  lemma {:induction false} EmaRecurrence(xs: seq<real>, span: nat, t: nat)
    requires span >= 1 && t < |xs|
    ensures t == 0 ==> Ema(xs, span)[0] == xs[0]
    ensures t > 0 ==> Ema(xs, span)[t] == Alpha(span) * xs[t] + (1.0 - Alpha(span)) * Ema(xs, span)[t - 1]
  {
    var r := Ema(xs, span);
    EmaPrefix(xs, span, t + 1);
    EmaPrefix(xs, span, t);
    assert xs[..t + 1] == xs[..t] + [xs[t]];
    EmaSnoc(xs[..t], span, xs[t]);
    assert r[..t + 1][t] == r[t];
    assert r[..t] == Ema(xs[..t], span);
  }

  /** One more price is one more EMA step. */
  lemma EmaSnoc(xs: seq<real>, span: nat, x: real)
    requires span >= 1
    ensures var prev := Ema(xs, span);
      Ema(xs + [x], span) == prev + [if |prev| == 0 then x else EmaStep(Alpha(span), x, prev[|prev| - 1])]
  {
    assert (xs + [x])[..|xs|] == xs;
  }

  /** One EMA step is a convex combination, so it stays between bounds
      that hold for both the price and the previous value. */
  lemma EmaStepBounds(a: real, x: real, y: real, lo: real, hi: real)
    requires 0.0 < a <= 1.0 && lo <= x <= hi && lo <= y <= hi
    ensures lo <= EmaStep(a, x, y) <= hi
  {
    MulNonNegative(a, x - lo);
    MulNonNegative(1.0 - a, y - lo);
    MulNonNegative(a, hi - x);
    MulNonNegative(1.0 - a, hi - y);
  }

  /** The EMA never leaves the range of its inputs. */
  lemma {:induction false} EmaBounds(xs: seq<real>, span: nat, lo: real, hi: real)
    requires span >= 1
    requires forall i :: 0 <= i < |xs| ==> lo <= xs[i] <= hi
    ensures forall i :: 0 <= i < |xs| ==> lo <= Ema(xs, span)[i] <= hi
    decreases |xs|
  {
    if |xs| > 0 {
      var init := xs[..|xs| - 1];
      EmaBounds(init, span, lo, hi);
      var prev := Ema(init, span);
      var r := Ema(xs, span);
      assert r[..|init|] == prev;
      if |prev| > 0 {
        var a := Alpha(span);
        var x := xs[|xs| - 1];
        var y := prev[|prev| - 1];
        assert lo <= y <= hi;
        EmaStepBounds(a, x, y, lo, hi);
        assert r[|xs| - 1] == EmaStep(a, x, y);
      }
    }
  }

  /** A flat series has a flat EMA. */
  lemma EmaOfConstant(xs: seq<real>, span: nat, c: real)
    requires span >= 1
    requires forall i :: 0 <= i < |xs| ==> xs[i] == c
    ensures forall i :: 0 <= i < |xs| ==> Ema(xs, span)[i] == c
  {
    EmaBounds(xs, span, c, c);
  }

  // ---------------------------------------------------------------------
  // `kline_to_dataframe`: the exchange sends k-lines newest first; the
  // caller's list is reversed in place.
  // ---------------------------------------------------------------------

  /** One k-line row `[timestamp, open, high, low, close, status]`. */
  datatype Kline = Kline(timestamp: int, open: real, high: real, low: real, close: real, status: int)

  function Reversed<T>(s: seq<T>): (r: seq<T>)
    ensures |r| == |s|
    ensures forall i :: 0 <= i < |s| ==> r[i] == s[|s| - 1 - i]
  {
    seq(|s|, i requires 0 <= i < |s| => s[|s| - 1 - i])
  }

  /** Reversing twice gives the original list back. */
  lemma ReversedTwice<T>(s: seq<T>)
    ensures Reversed(Reversed(s)) == s
  {
  }

  /** Newest-first k-lines become oldest-first. */
  lemma ReversedOldestFirst(ks: seq<Kline>)
    requires forall i, j :: 0 <= i < j < |ks| ==> ks[i].timestamp > ks[j].timestamp
    ensures forall i, j :: 0 <= i < j < |ks| ==> Reversed(ks)[i].timestamp < Reversed(ks)[j].timestamp
  {
  }

  /** `kline_data.reverse()`: swap the two ends inwards. */
  method ReverseKlines(a: array<Kline>)
    modifies a
    ensures a[..] == Reversed(old(a[..]))
  {
    var n := a.Length;
    for i := 0 to n / 2
      invariant forall k :: 0 <= k < i ==> a[k] == old(a[n - 1 - k]) && a[n - 1 - k] == old(a[k])
      invariant forall k :: i <= k < n - i ==> a[k] == old(a[k])
    {
      a[i], a[n - 1 - i] := a[n - 1 - i], a[i];
    }
  }

  function Closes(ks: seq<Kline>): (r: seq<real>)
    ensures |r| == |ks| && forall i :: 0 <= i < |ks| ==> r[i] == ks[i].close
  {
    seq(|ks|, i requires 0 <= i < |ks| => ks[i].close)
  }

  // ---------------------------------------------------------------------
  // `calc_macd`.
  // ---------------------------------------------------------------------

  /** The indicator columns, one entry per row. */
  datatype MacdColumns = MacdColumns(dif: seq<real>, dea: seq<real>, hist: seq<real>)

  predicate WellFormed(m: MacdColumns) {
    |m.dif| == |m.dea| == |m.hist|
  }

  function Sub(a: seq<real>, b: seq<real>): (r: seq<real>)
    requires |a| == |b|
    ensures |r| == |a| && forall i :: 0 <= i < |a| ==> r[i] == a[i] - b[i]
  {
    seq(|a|, i requires 0 <= i < |a| => a[i] - b[i])
  }

  /** DIF = EMA(fast) - EMA(slow), DEA = EMA(DIF, signal) and
      MACD_HIST = 2 * (DIF - DEA), all the length of the price column. */
  function MacdOf(closes: seq<real>, fast: nat, slow: nat, signal: nat): (m: MacdColumns)
    requires fast >= 1 && slow >= 1 && signal >= 1
    ensures WellFormed(m) && |m.dif| == |closes|
  {
    var dif := Sub(Ema(closes, fast), Ema(closes, slow));
    var dea := Ema(dif, signal);
    MacdColumns(dif, dea, seq(|dif|, i requires 0 <= i < |dif| => (dif[i] - dea[i]) * 2.0))
  }

  /** The histogram is positive exactly where DIF is above DEA, and
      negative exactly where it is below. */
  lemma HistSign(closes: seq<real>, fast: nat, slow: nat, signal: nat, i: nat)
    requires fast >= 1 && slow >= 1 && signal >= 1 && i < |closes|
    ensures var m := MacdOf(closes, fast, slow, signal);
      m.hist[i] == 2.0 * (m.dif[i] - m.dea[i]) &&
      (m.hist[i] > 0.0 <==> m.dif[i] > m.dea[i]) && (m.hist[i] < 0.0 <==> m.dif[i] < m.dea[i])
  {
  }

  /** A flat market has all three columns at zero. */
  lemma MacdOfFlat(closes: seq<real>, fast: nat, slow: nat, signal: nat, c: real)
    requires fast >= 1 && slow >= 1 && signal >= 1
    requires forall i :: 0 <= i < |closes| ==> closes[i] == c
    ensures var m := MacdOf(closes, fast, slow, signal);
      forall i :: 0 <= i < |closes| ==> m.dif[i] == 0.0 && m.dea[i] == 0.0 && m.hist[i] == 0.0
  {
    EmaOfConstant(closes, fast, c);
    EmaOfConstant(closes, slow, c);
    var dif := Sub(Ema(closes, fast), Ema(closes, slow));
    EmaOfConstant(dif, signal, 0.0);
  }

  /** `calc_macd` on the caller's k-line list (which it leaves reversed). */
  method CalcMacd(klines: array<Kline>, fast: nat, slow: nat, signal: nat) returns (closes: seq<real>, m: MacdColumns)
    requires fast >= 1 && slow >= 1 && signal >= 1
    modifies klines
    ensures klines[..] == Reversed(old(klines[..]))
    ensures closes == Closes(klines[..]) && m == MacdOf(closes, fast, slow, signal)
  {
    ReverseKlines(klines);
    closes := Closes(klines[..]);
    m := MacdOf(closes, fast, slow, signal);
  }

  // ---------------------------------------------------------------------
  // `crosses`: comparisons against the previous row (`shift(1)`), which
  // does not exist on row 0, so no flag is ever set there.
  // ---------------------------------------------------------------------

  /** `a` crosses `b` upwards at row i: below on row i-1, above on row i. */
  predicate CrossUp(a: seq<real>, b: seq<real>, i: nat)
    requires |a| == |b| && i < |a|
  {
    i > 0 && a[i - 1] < b[i - 1] && a[i] > b[i]
  }

  /** `a` crosses `b` downwards at row i. */
  predicate CrossDown(a: seq<real>, b: seq<real>, i: nat)
    requires |a| == |b| && i < |a|
  {
    i > 0 && a[i - 1] > b[i - 1] && a[i] < b[i]
  }

  /** `zero_up`: the histogram moves from <= 0 to > 0. */
  predicate ZeroUp(h: seq<real>, i: nat)
    requires i < |h|
  {
    i > 0 && h[i - 1] <= 0.0 && h[i] > 0.0
  }

  /** `zero_down`: the histogram moves from >= 0 to < 0. */
  predicate ZeroDown(h: seq<real>, i: nat)
    requires i < |h|
  {
    i > 0 && h[i - 1] >= 0.0 && h[i] < 0.0
  }

  /** `hist_red_to_green`, computed by its own expression. */
  predicate HistRedToGreen(h: seq<real>, i: nat)
    requires i < |h|
  {
    i > 0 && h[i - 1] <= 0.0 && h[i] > 0.0
  }

  /** `hist_green_to_red`, computed by its own expression. */
  predicate HistGreenToRed(h: seq<real>, i: nat)
    requires i < |h|
  {
    i > 0 && h[i - 1] >= 0.0 && h[i] < 0.0
  }

  /** The six flag columns `crosses` adds. */
  datatype CrossFlags = CrossFlags(
    golden: seq<bool>, death: seq<bool>,
    zeroUp: seq<bool>, zeroDown: seq<bool>,
    redToGreen: seq<bool>, greenToRed: seq<bool>)

  function Crosses(m: MacdColumns): (c: CrossFlags)
    requires WellFormed(m)
    ensures |c.golden| == |c.death| == |c.zeroUp| == |c.zeroDown| == |c.redToGreen| == |c.greenToRed| == |m.dif|
    ensures |m.dif| > 0 ==> !c.golden[0] && !c.death[0] && !c.zeroUp[0] && !c.zeroDown[0]
    ensures forall i :: 0 <= i < |m.dif| ==> !(c.golden[i] && c.death[i]) && !(c.zeroUp[i] && c.zeroDown[i])
    ensures c.zeroUp == c.redToGreen && c.zeroDown == c.greenToRed
  {
    var n := |m.dif|;
    CrossFlags(
      seq(n, i requires 0 <= i < n => CrossUp(m.dif, m.dea, i)),
      seq(n, i requires 0 <= i < n => CrossDown(m.dif, m.dea, i)),
      seq(n, i requires 0 <= i < n => ZeroUp(m.hist, i)),
      seq(n, i requires 0 <= i < n => ZeroDown(m.hist, i)),
      seq(n, i requires 0 <= i < n => HistRedToGreen(m.hist, i)),
      seq(n, i requires 0 <= i < n => HistGreenToRed(m.hist, i)))
  }

  /** With the histogram at 2 * (DIF - DEA), a golden cross is always a
      zero-line cross up, and a death cross a zero-line cross down. */
  lemma CrossImpliesZeroCross(closes: seq<real>, fast: nat, slow: nat, signal: nat, i: nat)
    requires fast >= 1 && slow >= 1 && signal >= 1 && i < |closes|
    ensures var m := MacdOf(closes, fast, slow, signal);
      (CrossUp(m.dif, m.dea, i) ==> ZeroUp(m.hist, i)) &&
      (CrossDown(m.dif, m.dea, i) ==> ZeroDown(m.hist, i))
  {
    if i > 0 {
      HistSign(closes, fast, slow, signal, i);
      HistSign(closes, fast, slow, signal, i - 1);
    }
  }

  // ---------------------------------------------------------------------
  // `double_cross`.
  // ---------------------------------------------------------------------

  /** The row numbers where a flag column is set, in increasing order
      (`d.index[col].to_list()` on a positional index). */
  function Positions(flags: seq<bool>): (r: seq<nat>)
    ensures forall k :: 0 <= k < |r| ==> r[k] < |flags| && flags[r[k]]
    ensures forall k, l :: 0 <= k < l < |r| ==> r[k] < r[l]
    ensures forall i :: 0 <= i < |flags| && flags[i] ==> i in r
    decreases |flags|
  {
    if |flags| == 0 then []
    else
      var init := Positions(flags[..|flags| - 1]);
      if flags[|flags| - 1] then init + [|flags| - 1] else init
  }

  function Abs(x: real): real {
    if x < 0.0 then -x else x
  }

  /** The largest |h[j]| for lo <= j <= hi. */
  function MaxAbs(h: seq<real>, lo: nat, hi: nat): (r: real)
    requires lo <= hi < |h|
    ensures forall j :: lo <= j <= hi ==> Abs(h[j]) <= r
    ensures exists j :: lo <= j <= hi && Abs(h[j]) == r
    decreases hi - lo
  {
    if lo == hi then Abs(h[lo])
    else
      var rest := MaxAbs(h, lo, hi - 1);
      if Abs(h[hi]) > rest then Abs(h[hi]) else rest
  }

  /** `d.loc[t : t + peak_window, 'MACD_HIST'].abs().max()`: the label
      slice is inclusive and stops at the last row. */
  function PeakAbs(h: seq<real>, t: nat, peakWindow: nat): real
    requires t < |h|
  {
    MaxAbs(h, t, if t + peakWindow < |h| then t + peakWindow else |h| - 1)
  }

  ghost predicate RowsIn(cross: seq<nat>, n: nat) {
    forall k :: 0 <= k < |cross| ==> cross[k] < n
  }

  /** The i-th cross (i >= 1) confirms the one before it: it comes within
      `lookback` rows and its histogram peak is strictly higher. */
  predicate Confirms(cross: seq<nat>, h: seq<real>, lookback: int, peakWindow: nat, i: nat)
    requires RowsIn(cross, |h|) && 1 <= i < |cross|
  {
    cross[i] - cross[i - 1] <= lookback &&
    PeakAbs(h, cross[i], peakWindow) > PeakAbs(h, cross[i - 1], peakWindow)
  }

  /** The flag column after `mark_double` has looked at crosses 1 .. i-1. */
  function Marks(base: seq<bool>, cross: seq<nat>, h: seq<real>, lookback: int, peakWindow: nat, i: nat): (r: seq<bool>)
    requires |base| == |h| && RowsIn(cross, |h|) && i <= |cross|
    ensures |r| == |base|
    decreases i
  {
    if i <= 1 then base
    else
      var b := Marks(base, cross, h, lookback, peakWindow, i - 1);
      if Confirms(cross, h, lookback, peakWindow, i - 1) then b[cross[i - 1] := true] else b
  }

  /** A row is flagged only if it was flagged before or it is a cross
      other than the first that confirms the previous one. */
  lemma {:induction false} MarksOnlyConfirmed(base: seq<bool>, cross: seq<nat>, h: seq<real>, lookback: int, peakWindow: nat, i: nat, row: nat)
    requires |base| == |h| && RowsIn(cross, |h|) && i <= |cross| && row < |h|
    requires Marks(base, cross, h, lookback, peakWindow, i)[row]
    ensures base[row] || exists k :: 1 <= k < i && cross[k] == row && Confirms(cross, h, lookback, peakWindow, k)
    decreases i
  {
    if i > 1 {
      var b := Marks(base, cross, h, lookback, peakWindow, i - 1);
      if !(Confirms(cross, h, lookback, peakWindow, i - 1) && cross[i - 1] == row) {
        MarksOnlyConfirmed(base, cross, h, lookback, peakWindow, i - 1, row);
      }
    }
  }

  /** Every confirming cross is flagged, and a flag once set stays set. */
  lemma {:induction false} MarksComplete(base: seq<bool>, cross: seq<nat>, h: seq<real>, lookback: int, peakWindow: nat, i: nat, k: nat)
    requires |base| == |h| && RowsIn(cross, |h|) && i <= |cross|
    requires 1 <= k < i && Confirms(cross, h, lookback, peakWindow, k)
    ensures Marks(base, cross, h, lookback, peakWindow, i)[cross[k]]
    decreases i
  {
    if k < i - 1 {
      MarksComplete(base, cross, h, lookback, peakWindow, i - 1, k);
    }
  }

  /** `mark_double`: walk consecutive pairs of crosses and set the flag of
      the later one when it confirms the earlier. */
  method MarkDouble(cross: seq<nat>, h: seq<real>, lookback: int, peakWindow: nat, col: array<bool>)
    requires col.Length == |h| && RowsIn(cross, |h|)
    modifies col
    ensures col[..] == Marks(old(col[..]), cross, h, lookback, peakWindow, |cross|)
  {
    if |cross| == 0 {
      return;
    }
    for i := 1 to |cross|
      invariant col[..] == Marks(old(col[..]), cross, h, lookback, peakWindow, i)
    {
      var t2, t1 := cross[i], cross[i - 1];
      if t2 - t1 <= lookback {
        var h1 := PeakAbs(h, t1, peakWindow);
        var h2 := PeakAbs(h, t2, peakWindow);
        if h2 > h1 {
          col[t2] := true;
        }
      }
    }
  }

  /** `double_cross`: both flag columns start all false and are marked from
      the golden and the death crosses respectively. */
  method DoubleCross(m: MacdColumns, lookback: int, peakWindow: nat) returns (doubleGolden: seq<bool>, doubleDeath: seq<bool>)
    requires WellFormed(m)
    ensures var c := Crosses(m); var none := seq(|m.dif|, i => false);
      doubleGolden == Marks(none, Positions(c.golden), m.hist, lookback, peakWindow, |Positions(c.golden)|) &&
      doubleDeath == Marks(none, Positions(c.death), m.hist, lookback, peakWindow, |Positions(c.death)|)
  {
    var c := Crosses(m);
    var gpos := Positions(c.golden);
    var dpos := Positions(c.death);
    var g := new bool[|m.dif|](i => false);
    var d := new bool[|m.dif|](i => false);
    assert g[..] == seq(|m.dif|, i => false) && d[..] == g[..];
    MarkDouble(gpos, m.hist, lookback, peakWindow, g);
    MarkDouble(dpos, m.hist, lookback, peakWindow, d);
    doubleGolden, doubleDeath := g[..], d[..];
  }

  /** Starting from an all-false column, a row ends up flagged exactly
      when it is a cross other than the first that confirms the cross
      before it. */
  lemma DoubleMeaning(cross: seq<nat>, h: seq<real>, lookback: int, peakWindow: nat, row: nat)
    requires RowsIn(cross, |h|) && row < |h|
    requires forall k, l :: 0 <= k < l < |cross| ==> cross[k] < cross[l]
    ensures var flagged := Marks(seq(|h|, i => false), cross, h, lookback, peakWindow, |cross|)[row];
      (flagged <==> exists k :: 1 <= k < |cross| && cross[k] == row && Confirms(cross, h, lookback, peakWindow, k)) &&
      (flagged ==> row != cross[0])
  {
    var none := seq(|h|, i => false);
    if Marks(none, cross, h, lookback, peakWindow, |cross|)[row] {
      MarksOnlyConfirmed(none, cross, h, lookback, peakWindow, |cross|, row);
    }
    if exists k :: 1 <= k < |cross| && cross[k] == row && Confirms(cross, h, lookback, peakWindow, k) {
      var k :| 1 <= k < |cross| && cross[k] == row && Confirms(cross, h, lookback, peakWindow, k);
      MarksComplete(none, cross, h, lookback, peakWindow, |cross|, k);
    }
  }

  // ---------------------------------------------------------------------
  // `_pivots` and `divergences`.
  // ---------------------------------------------------------------------

  function MinOf(s: seq<real>): (r: real)
    requires |s| > 0
    ensures forall j :: 0 <= j < |s| ==> r <= s[j]
    ensures exists j :: 0 <= j < |s| && r == s[j]
    decreases |s|
  {
    if |s| == 1 then s[0]
    else
      var rest := MinOf(s[..|s| - 1]);
      if s[|s| - 1] < rest then s[|s| - 1] else rest
  }

  function MaxOf(s: seq<real>): (r: real)
    requires |s| > 0
    ensures forall j :: 0 <= j < |s| ==> s[j] <= r
    ensures exists j :: 0 <= j < |s| && r == s[j]
    decreases |s|
  {
    if |s| == 1 then s[0]
    else
      var rest := MaxOf(s[..|s| - 1]);
      if s[|s| - 1] > rest then s[|s| - 1] else rest
  }

  /** `_pivots(mode='low')` at row i: the centred window of 2 * win + 1
      rows must fit (pandas yields NaN, hence false, near both ends) and
      its middle value must equal the window's minimum. */
  predicate PivotLow(s: seq<real>, win: nat, i: nat) {
    win <= i && i + win < |s| && s[i] == MinOf(s[i - win..i + win + 1])
  }

  /** `_pivots(mode='high')` at row i. */
  predicate PivotHigh(s: seq<real>, win: nat, i: nat) {
    win <= i && i + win < |s| && s[i] == MaxOf(s[i - win..i + win + 1])
  }

  /** A low pivot is a row at least `win` rows from both ends whose value
      is not above any value within `win` rows of it. */
  lemma PivotLowMeaning(s: seq<real>, win: nat, i: nat)
    ensures PivotLow(s, win, i) <==>
      win <= i && i + win < |s| && forall j :: i - win <= j <= i + win ==> s[i] <= s[j]
  {
    if win <= i && i + win < |s| {
      var w := s[i - win..i + win + 1];
      assert w[win] == s[i];
      if forall j :: i - win <= j <= i + win ==> s[i] <= s[j] {
        forall j | 0 <= j < |w| ensures s[i] <= w[j] {
          assert w[j] == s[i - win + j];
        }
        var r := MinOf(w);
        assert r <= w[win];
      }
      if PivotLow(s, win, i) {
        forall j | i - win <= j <= i + win ensures s[i] <= s[j] {
          assert s[j] == w[j - (i - win)];
        }
      }
    }
  }

  /** A high pivot is the mirror image. */
  lemma PivotHighMeaning(s: seq<real>, win: nat, i: nat)
    ensures PivotHigh(s, win, i) <==>
      win <= i && i + win < |s| && forall j :: i - win <= j <= i + win ==> s[j] <= s[i]
  {
    if win <= i && i + win < |s| {
      var w := s[i - win..i + win + 1];
      assert w[win] == s[i];
      if forall j :: i - win <= j <= i + win ==> s[j] <= s[i] {
        forall j | 0 <= j < |w| ensures w[j] <= s[i] {
          assert w[j] == s[i - win + j];
        }
        var r := MaxOf(w);
        assert w[win] <= r;
      }
      if PivotHigh(s, win, i) {
        forall j | i - win <= j <= i + win ensures s[j] <= s[i] {
          assert s[j] == w[j - (i - win)];
        }
      }
    }
  }

  function PivotLows(s: seq<real>, win: nat): (r: seq<bool>)
    ensures |r| == |s| && forall i :: 0 <= i < |s| ==> r[i] == PivotLow(s, win, i)
  {
    seq(|s|, i requires 0 <= i < |s| => PivotLow(s, win, i))
  }

  function PivotHighs(s: seq<real>, win: nat): (r: seq<bool>)
    ensures |r| == |s| && forall i :: 0 <= i < |s| ==> r[i] == PivotHigh(s, win, i)
  {
    seq(|s|, i requires 0 <= i < |s| => PivotHigh(s, win, i))
  }

  /** `last_two`: the last two entries, or nothing when there are fewer. */
  function LastTwo(vals: seq<nat>): (r: seq<nat>)
    ensures |vals| >= 2 ==> r == vals[|vals| - 2..]
    ensures |vals| < 2 ==> r == []
  {
    if |vals| >= 2 then vals[|vals| - 2..] else []
  }

  /** The row `divergences` marks `bullish_div`, if any: the later of the
      last two price pivot lows, when price made a lower low there while
      the indicator's last two pivot lows made a higher low. */
  function BullishRow(price: seq<real>, ind: seq<real>, win: nat): Option<nat>
    requires |price| == |ind|
  {
    var lp := LastTwo(Positions(PivotLows(price, win)));
    var lm := LastTwo(Positions(PivotLows(ind, win)));
    if |lp| == 2 && |lm| == 2 && price[lp[1]] < price[lp[0]] && ind[lm[1]] > ind[lm[0]] then Some(lp[1])
    else None
  }

  /** The row `divergences` marks `bearish_div`, if any: the mirror rule on
      pivot highs. */
  function BearishRow(price: seq<real>, ind: seq<real>, win: nat): Option<nat>
    requires |price| == |ind|
  {
    var hp := LastTwo(Positions(PivotHighs(price, win)));
    var hm := LastTwo(Positions(PivotHighs(ind, win)));
    if |hp| == 2 && |hm| == 2 && price[hp[1]] > price[hp[0]] && ind[hm[1]] < ind[hm[0]] then Some(hp[1])
    else None
  }

  /** The `bullish_div` column: set on at most that one row. */
  function BullishDiv(price: seq<real>, ind: seq<real>, win: nat): (r: seq<bool>)
    requires |price| == |ind|
    ensures |r| == |price|
    ensures forall i, j :: 0 <= i < |r| && 0 <= j < |r| && r[i] && r[j] ==> i == j
  {
    var row := BullishRow(price, ind, win);
    seq(|price|, i requires 0 <= i < |price| => row == Some(i))
  }

  /** The `bearish_div` column: set on at most that one row. */
  function BearishDiv(price: seq<real>, ind: seq<real>, win: nat): (r: seq<bool>)
    requires |price| == |ind|
    ensures |r| == |price|
    ensures forall i, j :: 0 <= i < |r| && 0 <= j < |r| && r[i] && r[j] ==> i == j
  {
    var row := BearishRow(price, ind, win);
    seq(|price|, i requires 0 <= i < |price| => row == Some(i))
  }

  /** `last_two` over the flagged rows of a column is [a, b] exactly when
      a and b are flagged rows, a before b, with no flagged row between
      them and none after b. */
  predicate LastTwoFlagged(f: seq<bool>, a: nat, b: nat) {
    a < b < |f| && f[a] && f[b] &&
    (forall q :: a < q < b ==> !f[q]) &&
    (forall q :: b < q < |f| ==> !f[q])
  }

  lemma LastTwoPositions(f: seq<bool>, a: nat, b: nat)
    ensures LastTwo(Positions(f)) == [a, b] <==> LastTwoFlagged(f, a, b)
  {
    if LastTwo(Positions(f)) == [a, b] {
      LastTwoFlaggedOfPositions(f, a, b);
    }
    if LastTwoFlagged(f, a, b) {
      PositionsOfLastTwoFlagged(f, a, b);
    }
  }

  lemma LastTwoFlaggedOfPositions(f: seq<bool>, a: nat, b: nat)
    requires LastTwo(Positions(f)) == [a, b]
    ensures LastTwoFlagged(f, a, b)
  {
    var ps := Positions(f);
    var n := |ps|;
    assert n >= 2 && ps[n - 2] == a && ps[n - 1] == b;
    forall q | a < q < |f| && q != b ensures !f[q] {
      forall k | 0 <= k < n ensures ps[k] != q {
        if k < n - 2 {
          assert ps[k] < ps[n - 2];
        }
      }
    }
  }

  lemma PositionsOfLastTwoFlagged(f: seq<bool>, a: nat, b: nat)
    requires LastTwoFlagged(f, a, b)
    ensures LastTwo(Positions(f)) == [a, b]
  {
    var ps := Positions(f);
    forall k | 0 <= k < |ps| ensures ps[k] <= a || ps[k] == b {
      assert f[ps[k]];
    }
    IncreasingEndsWith(ps, a, b);
  }

  /** A strictly increasing list holding a < b and nothing above a other
      than b ends with a, b. */
  lemma IncreasingEndsWith(ps: seq<nat>, a: nat, b: nat)
    requires forall k, l :: 0 <= k < l < |ps| ==> ps[k] < ps[l]
    requires a < b && a in ps && b in ps
    requires forall k :: 0 <= k < |ps| ==> ps[k] <= a || ps[k] == b
    ensures |ps| >= 2 && ps[|ps| - 2..] == [a, b]
  {
    var n := |ps|;
    var ka :| 0 <= ka < n && ps[ka] == a;
    var kb :| 0 <= kb < n && ps[kb] == b;
    assert b <= ps[n - 1];
    assert ka <= n - 2;
    assert a <= ps[n - 2] < b;
  }

  /** The last two price (or indicator) pivot lows are rows a < b. */
  predicate LastTwoLows(s: seq<real>, win: nat, a: nat, b: nat) {
    a < b < |s| && PivotLow(s, win, a) && PivotLow(s, win, b) &&
    (forall q :: a < q < b ==> !PivotLow(s, win, q)) &&
    (forall q :: b < q < |s| ==> !PivotLow(s, win, q))
  }

  /** The last two pivot highs are rows a < b. */
  predicate LastTwoHighs(s: seq<real>, win: nat, a: nat, b: nat) {
    a < b < |s| && PivotHigh(s, win, a) && PivotHigh(s, win, b) &&
    (forall q :: a < q < b ==> !PivotHigh(s, win, q)) &&
    (forall q :: b < q < |s| ==> !PivotHigh(s, win, q))
  }

  lemma LastTwoLowsOfPositions(s: seq<real>, win: nat, a: nat, b: nat)
    ensures LastTwo(Positions(PivotLows(s, win))) == [a, b] <==> LastTwoLows(s, win, a, b)
  {
    LastTwoPositions(PivotLows(s, win), a, b);
  }

  lemma LastTwoHighsOfPositions(s: seq<real>, win: nat, a: nat, b: nat)
    ensures LastTwo(Positions(PivotHighs(s, win))) == [a, b] <==> LastTwoHighs(s, win, a, b)
  {
    LastTwoPositions(PivotHighs(s, win), a, b);
  }

  /** A bullish divergence sits on the later of the last two price pivot
      lows, whose price is below the earlier one's, while the later of
      the indicator's last two pivot lows is above the earlier one. */
  lemma BullishMeaning(price: seq<real>, ind: seq<real>, win: nat, i: nat)
    requires |price| == |ind| && i < |price|
    requires BullishDiv(price, ind, win)[i]
    ensures exists p: nat :: LastTwoLows(price, win, p, i) && price[i] < price[p]
    ensures exists a: nat, b: nat :: LastTwoLows(ind, win, a, b) && ind[a] < ind[b]
  {
    var lp := LastTwo(Positions(PivotLows(price, win)));
    var lm := LastTwo(Positions(PivotLows(ind, win)));
    assert lp == [lp[0], i];
    assert lm == [lm[0], lm[1]];
    LastTwoLowsOfPositions(price, win, lp[0], i);
    LastTwoLowsOfPositions(ind, win, lm[0], lm[1]);
  }

  /** Conversely, those pivots set `bullish_div` on the later price pivot. */
  lemma BullishFromPivots(price: seq<real>, ind: seq<real>, win: nat, p: nat, i: nat, a: nat, b: nat)
    requires |price| == |ind|
    requires LastTwoLows(price, win, p, i) && price[i] < price[p]
    requires LastTwoLows(ind, win, a, b) && ind[a] < ind[b]
    ensures BullishDiv(price, ind, win)[i]
  {
    LastTwoLowsOfPositions(price, win, p, i);
    LastTwoLowsOfPositions(ind, win, a, b);
    assert BullishRow(price, ind, win) == Some(i);
  }

  /** A bearish divergence sits on the later of the last two price pivot
      highs, whose price is above the earlier one's, while the later of
      the indicator's last two pivot highs is below the earlier one. */
  lemma BearishMeaning(price: seq<real>, ind: seq<real>, win: nat, i: nat)
    requires |price| == |ind| && i < |price|
    requires BearishDiv(price, ind, win)[i]
    ensures exists p: nat :: LastTwoHighs(price, win, p, i) && price[i] > price[p]
    ensures exists a: nat, b: nat :: LastTwoHighs(ind, win, a, b) && ind[a] > ind[b]
  {
    var hp := LastTwo(Positions(PivotHighs(price, win)));
    var hm := LastTwo(Positions(PivotHighs(ind, win)));
    assert hp == [hp[0], i];
    assert hm == [hm[0], hm[1]];
    LastTwoHighsOfPositions(price, win, hp[0], i);
    LastTwoHighsOfPositions(ind, win, hm[0], hm[1]);
  }

  /** Conversely, those pivots set `bearish_div` on the later price pivot. */
  lemma BearishFromPivots(price: seq<real>, ind: seq<real>, win: nat, p: nat, i: nat, a: nat, b: nat)
    requires |price| == |ind|
    requires LastTwoHighs(price, win, p, i) && price[i] > price[p]
    requires LastTwoHighs(ind, win, a, b) && ind[a] > ind[b]
    ensures BearishDiv(price, ind, win)[i]
  {
    LastTwoHighsOfPositions(price, win, p, i);
    LastTwoHighsOfPositions(ind, win, a, b);
    assert BearishRow(price, ind, win) == Some(i);
  }

  // ---------------------------------------------------------------------
  // `ema_cross`: EMA(5) against EMA(10) of the price column.
  // ---------------------------------------------------------------------

  const EMA_FAST: nat := 5
  const EMA_SLOW: nat := 10

  function EmaGoldenCross(closes: seq<real>): (r: seq<bool>)
    ensures |r| == |closes|
  {
    var f := Ema(closes, EMA_FAST);
    var sl := Ema(closes, EMA_SLOW);
    seq(|closes|, i requires 0 <= i < |closes| => CrossUp(f, sl, i))
  }

  function EmaDeathCross(closes: seq<real>): (r: seq<bool>)
    ensures |r| == |closes|
  {
    var f := Ema(closes, EMA_FAST);
    var sl := Ema(closes, EMA_SLOW);
    seq(|closes|, i requires 0 <= i < |closes| => CrossDown(f, sl, i))
  }

  /** On a flat market the two EMAs coincide, so neither cross ever
      fires; and the two flags are never set on the same row. */
  lemma EmaCrossFlat(closes: seq<real>, c: real)
    requires forall i :: 0 <= i < |closes| ==> closes[i] == c
    ensures forall i :: 0 <= i < |closes| ==> !EmaGoldenCross(closes)[i] && !EmaDeathCross(closes)[i]
  {
    EmaOfConstant(closes, EMA_FAST, c);
    EmaOfConstant(closes, EMA_SLOW, c);
  }

  lemma EmaCrossExclusive(closes: seq<real>, i: nat)
    requires i < |closes|
    ensures !(EmaGoldenCross(closes)[i] && EmaDeathCross(closes)[i])
  {
  }
}
