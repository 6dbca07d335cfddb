/** The OKX / Backpack funding-rate arbitrage bot, without its exchange
    calls: which way to trade a pair given both funding rates, when to
    stand aside, how candidates are ranked and filtered, how large the
    two legs are, and which order side each leg uses. Rates, funding
    times, ticker prices and the clock are parameters. */
module Arbitrage {
  import opened Common

  const THRESHOLD_DIFF_Y: real := 0.07
  const MAX_ORDER_USD: real := 1000.0
  const MAX_LEVERAGE: real := 10.0
  const SETTLEMENT_WINDOW_MIN: int := 30

  /** Contract parameters of an OKX perpetual: minimum order size and the
      contract value (coins per contract). */
  datatype Instrument = Instrument(lotsz: real, minsz: real, ctVal: real)

  /** `SYMBOL_MAP`, in its insertion order: OKX perpetual to Backpack
      perpetual. */
  const SYMBOL_MAP: seq<(string, string)> := [
    ("BTC-USDT-SWAP", "BTC_USDC_PERP"),
    ("ETH-USDT-SWAP", "ETH_USDC_PERP"),
    ("SOL-USDT-SWAP", "SOL_USDC_PERP"),
    ("SUI-USDT-SWAP", "SUI_USDC_PERP"),
    ("XRP-USDT-SWAP", "XRP_USDC_PERP"),
    ("DOGE-USDT-SWAP", "DOGE_USDC_PERP"),
    ("BNB-USDT-SWAP", "BNB_USDC_PERP"),
    ("FARTCOIN-USDT-SWAP", "FARTCOIN_USDC_PERP"),
    ("AAVE-USDT-SWAP", "AAVE_USDC_PERP"),
    ("HYPE-USDT-SWAP", "HYPE_USDC_PERP")
  ]

  /** `SYMBOL_OKX_INSTRUMENT_MAP`. */
  const INSTRUMENTS: map<string, Instrument> := map[
    "BTC-USDT-SWAP" := Instrument(0.01, 0.01, 0.01),
    "ETH-USDT-SWAP" := Instrument(0.01, 0.01, 0.1),
    "SOL-USDT-SWAP" := Instrument(0.01, 0.01, 1.0),
    "SUI-USDT-SWAP" := Instrument(1.0, 1.0, 1.0),
    "XRP-USDT-SWAP" := Instrument(0.01, 0.01, 100.0),
    "DOGE-USDT-SWAP" := Instrument(0.01, 0.01, 1000.0),
    "KAITO-USDT-SWAP" := Instrument(1.0, 1.0, 1.0),
    "BNB-USDT-SWAP" := Instrument(1.0, 1.0, 0.01),
    "AAVE-USDT-SWAP" := Instrument(0.1, 0.1, 0.1)
  ]

  /** Every listed instrument has a positive minimum size and contract
      value, so sizing never divides by zero; FARTCOIN and HYPE are mapped
      to Backpack but have no instrument entry. */
  lemma InstrumentTable()
    ensures forall s :: s in INSTRUMENTS ==> INSTRUMENTS[s].minsz > 0.0 && INSTRUMENTS[s].ctVal > 0.0
    ensures "FARTCOIN-USDT-SWAP" !in INSTRUMENTS && "HYPE-USDT-SWAP" !in INSTRUMENTS
  {
  }

  // ---------------------------------------------------------------------
  // Quantities.
  // ---------------------------------------------------------------------

  /** `calc_qty`: OKX contracts for a margin at a leverage and price. */
  function CalcQty(price: real, margin: real, leverage: real, ctVal: real): (r: real)
    requires price != 0.0 && ctVal != 0.0
    ensures r * price * ctVal == margin * leverage
  {
    margin * leverage / price / ctVal
  }

  /** `calc_qty_backpack`: coins for a margin at a leverage and price. */
  function CalcQtyBackpack(price: real, margin: real, leverage: real): (r: real)
    requires price != 0.0
    ensures r * price == margin * leverage
  {
    margin * leverage / price
  }

  /** OKX contracts times the contract value are the Backpack coin amount
      for the same notional. */
  lemma ContractsTimesValue(price: real, margin: real, leverage: real, ctVal: real)
    requires price != 0.0 && ctVal != 0.0
    ensures CalcQty(price, margin, leverage, ctVal) * ctVal == CalcQtyBackpack(price, margin, leverage)
  {
    var q := CalcQty(price, margin, leverage, ctVal);
    var b := CalcQtyBackpack(price, margin, leverage);
    assert (q * ctVal) * price == b * price;
  }

  /** k minimum sizes. */
  function Times(k: int, minsz: real): real {
    k as real * minsz
  }

  /** `int(raw // minsz) * minsz`: the order size rounded down to a whole
      number of minimum sizes. */
  function RoundDownToMin(raw: real, minsz: real): (q: real)
    requires minsz > 0.0
  {
    Floor(raw / minsz) as real * minsz
  }

  /** The rounded size is a whole multiple of the minimum size, never above
      the raw size and less than one minimum size below it; for a
      non-negative raw size it is non-negative. */
  lemma RoundDownBounds(raw: real, minsz: real)
    requires minsz > 0.0
    ensures exists k: int :: RoundDownToMin(raw, minsz) == Times(k, minsz)
    ensures RoundDownToMin(raw, minsz) <= raw < RoundDownToMin(raw, minsz) + minsz
    ensures raw >= 0.0 ==> RoundDownToMin(raw, minsz) >= 0.0
  {
    var k := Floor(raw / minsz);
    var x := raw / minsz;
    assert x * minsz == raw;
    assert k as real <= x < k as real + 1.0;
    assert RoundDownToMin(raw, minsz) == Times(k, minsz);
    var q := k as real * minsz;
    MulLess(x, k as real + 1.0, minsz);
    assert raw < (k as real + 1.0) * minsz;
    assert (k as real + 1.0) * minsz == q + minsz;
    MulAtMost(k as real, x, minsz);
    assert RoundDownToMin(raw, minsz) == q;
    if raw >= 0.0 {
      assert k >= 0;
      MulNonNegative(k as real, minsz);
    }
  }

  lemma MulLess(a: real, b: real, c: real)
    requires a < b && c > 0.0
    ensures a * c < b * c
  {
  }



  // ---------------------------------------------------------------------
  // Direction table and hold rules.
  // ---------------------------------------------------------------------

  datatype Action = Long | Short | Hold

  /** The if-chain of `calculate_funding_rate_diff`: which leg is shorted
      (the one paying the higher funding rate). */
  function Directions(okxRate: real, backpackRate: real): (r: (Action, Action))
    ensures (r.0 == Hold <==> r.1 == Hold) && (r.0 == Short <==> r.1 == Long) && (r.0 == Long <==> r.1 == Short)
  {
    if okxRate >= 0.0 && 0.0 > backpackRate then (Short, Long)
    else if okxRate < 0.0 && 0.0 <= backpackRate then (Long, Short)
    else if okxRate > backpackRate && backpackRate >= 0.0 then (Short, Long)
    else if okxRate < backpackRate && backpackRate <= 0.0 then (Long, Short)
    else if backpackRate > okxRate && okxRate >= 0.0 then (Long, Short)
    else if backpackRate < okxRate && okxRate <= 0.0 then (Short, Long)
    else (Hold, Hold)
  }

  /** The six branches amount to: short OKX and long Backpack when OKX pays
      more, the reverse when it pays less, hold when the rates are equal;
      so the legs are always opposite or both hold. */
  lemma DirectionTable(okxRate: real, backpackRate: real)
    ensures Directions(okxRate, backpackRate) == (Short, Long) <==> okxRate > backpackRate
    ensures Directions(okxRate, backpackRate) == (Long, Short) <==> okxRate < backpackRate
    ensures Directions(okxRate, backpackRate) == (Hold, Hold) <==> okxRate == backpackRate
  {
  }

  /** Swapping the two rates swaps the two legs. */
  lemma DirectionsAntisymmetric(okxRate: real, backpackRate: real)
    ensures Directions(backpackRate, okxRate) == (Directions(okxRate, backpackRate).1, Directions(okxRate, backpackRate).0)
  {
    DirectionTable(okxRate, backpackRate);
    DirectionTable(backpackRate, okxRate);
  }

  /** Both legs are forced to hold when the two funding times differ or the
      OKX symbol has no instrument entry. */
  function Actions(okxSymbol: string, okxRate: real, okxFundingTime: int, backpackRate: real, backpackFundingTime: int): (r: (Action, Action))
    ensures okxFundingTime != backpackFundingTime || okxSymbol !in INSTRUMENTS ==> r == (Hold, Hold)
    ensures okxFundingTime == backpackFundingTime && okxSymbol in INSTRUMENTS ==> r == Directions(okxRate, backpackRate)
  {
    if okxFundingTime != backpackFundingTime || okxSymbol !in INSTRUMENTS then (Hold, Hold)
    else Directions(okxRate, backpackRate)
  }

  // ---------------------------------------------------------------------
  // `calculate_funding_rate_diff`.
  // ---------------------------------------------------------------------

  /** What the two funding-rate requests returned for a pair. */
  datatype Rates = Rates(okxRate: real, okxFundingTime: int, backpackRate: real, backpackFundingTime: int)

  /** One pair of `SYMBOL_MAP` with its rates, or None when a request
      raised (the pair is then logged and skipped). */
  datatype Quote = Quote(okxSymbol: string, backpackSymbol: string, rates: Option<Rates>)

  /** One entry of `results`. */
  datatype Candidate = Candidate(
    okxSymbol: string, backpackSymbol: string,
    okxRate: real, backpackRate: real, diff: real, annualized: real,
    nextFundingTime: int, okxAction: Action, backpackAction: Action)

  /** A funding rate settled three times a day, annualised. */
  function Annualized(diff: real): (r: real)
    ensures r >= 0.0
    ensures r == 0.0 <==> diff == 0.0
  {
    Abs(diff) * 3.0 * 365.0
  }

  function Abs(x: real): real {
    if x < 0.0 then -x else x
  }

  /** The entry built for a pair whose rates were fetched. */
  function CandidateOf(okxSymbol: string, backpackSymbol: string, r: Rates): (c: Candidate)
    ensures c.okxSymbol == okxSymbol && c.backpackSymbol == backpackSymbol
    ensures c.diff == r.okxRate - r.backpackRate && c.annualized == Annualized(c.diff)
    ensures (c.okxAction, c.backpackAction) == Actions(okxSymbol, r.okxRate, r.okxFundingTime, r.backpackRate, r.backpackFundingTime)
    ensures c.nextFundingTime == r.okxFundingTime
  {
    var diff := r.okxRate - r.backpackRate;
    var acts := Actions(okxSymbol, r.okxRate, r.okxFundingTime, r.backpackRate, r.backpackFundingTime);
    Candidate(okxSymbol, backpackSymbol, r.okxRate, r.backpackRate, diff, Annualized(diff),
              r.okxFundingTime, acts.0, acts.1)
  }

  /** The entries appended by the loop, in pair order. */
  function Rows(quotes: seq<Quote>): (r: seq<Candidate>)
    ensures |r| <= |quotes|
    decreases |quotes|
  {
    if |quotes| == 0 then []
    else
      var q := quotes[|quotes| - 1];
      var init := Rows(quotes[..|quotes| - 1]);
      if q.rates.Some? then init + [CandidateOf(q.okxSymbol, q.backpackSymbol, q.rates.value)] else init
  }

  /** Every entry comes from a pair whose rates were fetched, and every such
      pair yields an entry. */
  lemma {:induction false} RowsFromQuotes(quotes: seq<Quote>)
    ensures forall c :: c in Rows(quotes) ==>
      exists i :: 0 <= i < |quotes| && quotes[i].rates.Some? &&
        c == CandidateOf(quotes[i].okxSymbol, quotes[i].backpackSymbol, quotes[i].rates.value)
    ensures forall i :: 0 <= i < |quotes| && quotes[i].rates.Some? ==>
      CandidateOf(quotes[i].okxSymbol, quotes[i].backpackSymbol, quotes[i].rates.value) in Rows(quotes)
    decreases |quotes|
  {
    if |quotes| > 0 {
      var init := quotes[..|quotes| - 1];
      RowsFromQuotes(init);
      forall c | c in Rows(quotes)
        ensures exists i :: (0 <= i < |quotes| && quotes[i].rates.Some? &&
          c == CandidateOf(quotes[i].okxSymbol, quotes[i].backpackSymbol, quotes[i].rates.value))
      {
        if c in Rows(init) {
          var i :| 0 <= i < |init| && init[i].rates.Some? &&
            c == CandidateOf(init[i].okxSymbol, init[i].backpackSymbol, init[i].rates.value);
          assert quotes[i] == init[i];
        }
      }
      forall i | 0 <= i < |quotes| && quotes[i].rates.Some?
        ensures CandidateOf(quotes[i].okxSymbol, quotes[i].backpackSymbol, quotes[i].rates.value) in Rows(quotes)
      {
        if i < |quotes| - 1 {
          assert quotes[i] == init[i];
        }
      }
    }
  }

  ghost predicate SortedDesc(s: seq<Candidate>) {
    forall i, j :: 0 <= i < j < |s| ==> s[i].annualized >= s[j].annualized
  }

  /** Insert `x` after every leading entry whose annualised return is at
      least its own. Equal entries thus keep their original order, as in
      Python's stable `sort(reverse=True)` (`SortDescStable`). */
  function InsertDesc(x: Candidate, s: seq<Candidate>): (r: seq<Candidate>)
    ensures |r| == |s| + 1
    decreases |s|
  {
    if |s| == 0 then [x]
    else if s[0].annualized >= x.annualized then [s[0]] + InsertDesc(x, s[1..])
    else [x] + s
  }

  /** `results.sort(key=annualized, reverse=True)`. */
  function SortDesc(s: seq<Candidate>): (r: seq<Candidate>)
    ensures |r| == |s|
    decreases |s|
  {
    if |s| == 0 then [] else InsertDesc(s[|s| - 1], SortDesc(s[..|s| - 1]))
  }

  lemma {:induction false} InsertDescPermutes(x: Candidate, s: seq<Candidate>)
    ensures multiset(InsertDesc(x, s)) == multiset(s) + multiset{x}
    decreases |s|
  {
    if |s| > 0 && s[0].annualized >= x.annualized {
      InsertDescPermutes(x, s[1..]);
      assert s == [s[0]] + s[1..];
    }
  }

  /** Putting an entry in front of a ranked list whose entries are all at
      most its own return keeps the list ranked. */
  lemma ConsSortedDesc(h: Candidate, t: seq<Candidate>)
    requires SortedDesc(t)
    requires forall y :: y in t ==> y.annualized <= h.annualized
    ensures SortedDesc([h] + t)
  {
    var r := [h] + t;
    forall i, j | 0 <= i < j < |r| ensures r[i].annualized >= r[j].annualized {
      assert r[j] == t[j - 1];
      if i > 0 {
        assert r[i] == t[i - 1];
      } else {
        assert t[j - 1] in t;
      }
    }
  }

  lemma {:induction false} InsertDescSorted(x: Candidate, s: seq<Candidate>)
    requires SortedDesc(s)
    ensures SortedDesc(InsertDesc(x, s))
    decreases |s|
  {
    if |s| == 0 {
    } else if s[0].annualized >= x.annualized {
      var t := s[1..];
      var rest := InsertDesc(x, t);
      InsertDescSorted(x, t);
      InsertDescPermutes(x, t);
      forall y | y in rest ensures y.annualized <= s[0].annualized {
        assert y in multiset(rest);
        if y != x {
          assert y in multiset(t);
          var k :| 0 <= k < |t| && t[k] == y;
          assert s[k + 1] == y;
        }
      }
      ConsSortedDesc(s[0], rest);
    } else {
      forall y | y in s ensures y.annualized <= x.annualized {
        var k :| 0 <= k < |s| && s[k] == y;
        assert s[0].annualized >= s[k].annualized || k == 0;
      }
      ConsSortedDesc(x, s);
    }
  }

  /** The ranking is non-increasing in annualised return and a permutation
      of the entries. */
  lemma {:induction false} SortDescCorrect(s: seq<Candidate>)
    ensures SortedDesc(SortDesc(s))
    ensures multiset(SortDesc(s)) == multiset(s)
    decreases |s|
  {
    if |s| > 0 {
      var init := s[..|s| - 1];
      SortDescCorrect(init);
      InsertDescSorted(s[|s| - 1], SortDesc(init));
      InsertDescPermutes(s[|s| - 1], SortDesc(init));
      assert s == init + [s[|s| - 1]];
    }
  }

  /** The entries of `s` whose annualised return is `v`, in order. */
  function WithReturn(s: seq<Candidate>, v: real): seq<Candidate>
    decreases |s|
  {
    if |s| == 0 then []
    else (if s[0].annualized == v then [s[0]] else []) + WithReturn(s[1..], v)
  }

  lemma {:induction false} WithReturnAppend(a: seq<Candidate>, b: seq<Candidate>, v: real)
    ensures WithReturn(a + b, v) == WithReturn(a, v) + WithReturn(b, v)
    decreases |a|
  {
    if |a| == 0 {
      assert a + b == b;
    } else {
      assert (a + b)[1..] == a[1..] + b;
      WithReturnAppend(a[1..], b, v);
    }
  }

  lemma WithReturnSnoc(s: seq<Candidate>, x: Candidate, v: real)
    ensures WithReturn(s + [x], v) == WithReturn(s, v) + (if x.annualized == v then [x] else [])
  {
    WithReturnAppend(s, [x], v);
    assert WithReturn([x], v) == (if x.annualized == v then [x] else []) + WithReturn([], v);
  }

  lemma {:induction false} WithReturnNone(s: seq<Candidate>, v: real)
    requires forall k :: 0 <= k < |s| ==> s[k].annualized != v
    ensures WithReturn(s, v) == []
    decreases |s|
  {
    if |s| > 0 {
      WithReturnNone(s[1..], v);
    }
  }

  /** Inserting into a ranked list puts `x` after every entry with the same
      return and leaves the order of the others alone. */
  lemma {:induction false} InsertDescStable(x: Candidate, s: seq<Candidate>, v: real)
    requires SortedDesc(s)
    ensures WithReturn(InsertDesc(x, s), v) ==
      WithReturn(s, v) + (if x.annualized == v then [x] else [])
    decreases |s|
  {
    if |s| == 0 {
    } else if s[0].annualized >= x.annualized {
      var r := InsertDesc(x, s);
      var h := if s[0].annualized == v then [s[0]] else [];
      assert r[0] == s[0] && r[1..] == InsertDesc(x, s[1..]);
      SortedDescTail(s);
      InsertDescStable(x, s[1..], v);
      assert WithReturn(s, v) == h + WithReturn(s[1..], v);
      assert WithReturn(r, v) == h + WithReturn(r[1..], v);
    } else {
      var r := [x] + s;
      assert r[1..] == s;
      assert forall k :: 0 <= k < |s| ==> s[k].annualized <= s[0].annualized;
      WithReturnNone(s, x.annualized);
    }
  }

  lemma SortedDescTail(s: seq<Candidate>)
    requires |s| > 0 && SortedDesc(s)
    ensures SortedDesc(s[1..])
  {
    forall i, j | 0 <= i < j < |s| - 1 ensures s[1..][i].annualized >= s[1..][j].annualized {
      assert s[1..][i] == s[i + 1] && s[1..][j] == s[j + 1];
    }
  }

  lemma SortDescStableStep(init: seq<Candidate>, x: Candidate, v: real)
    requires WithReturn(SortDesc(init), v) == WithReturn(init, v)
    ensures WithReturn(SortDesc(init + [x]), v) == WithReturn(init + [x], v)
  {
    var t := SortDesc(init);
    assert (init + [x])[..|init|] == init;
    assert SortDesc(init + [x]) == InsertDesc(x, t);
    SortDescCorrect(init);
    InsertDescStable(x, t, v);
    WithReturnSnoc(init, x, v);
  }

  /** The sort is stable: the entries with any one return keep the order
      they had in the input, so ties are opened in fetch order. */
  lemma {:induction false} SortDescStable(s: seq<Candidate>, v: real)
    ensures WithReturn(SortDesc(s), v) == WithReturn(s, v)
    decreases |s|
  {
    if |s| > 0 {
      var init := s[..|s| - 1];
      var x := s[|s| - 1];
      SortDescStable(init, v);
      assert s == init + [x];
      SortDescStableStep(init, x, v);
    }
  }

  /** The loop over the pairs, then the sort. */
  method FundingRateDiff(quotes: seq<Quote>) returns (results: seq<Candidate>)
    ensures results == SortDesc(Rows(quotes))
    ensures SortedDesc(results)
    ensures multiset(results) == multiset(Rows(quotes))
  {
    results := [];
    for i := 0 to |quotes|
      invariant results == Rows(quotes[..i])
    {
      assert quotes[..i + 1][..i] == quotes[..i];
      if quotes[i].rates.Some? {
        results := results + [CandidateOf(quotes[i].okxSymbol, quotes[i].backpackSymbol, quotes[i].rates.value)];
      }
    }
    assert quotes[..|quotes|] == quotes;
    SortDescCorrect(results);
    results := SortDesc(results);
  }

  // ---------------------------------------------------------------------
  // `within_funding_window` and the candidate filter.
  // ---------------------------------------------------------------------

  /** `0 <= int(seconds until settlement) <= window * 60`, with `int`
      truncating toward zero; times in seconds. */
  function WithinFundingWindow(nextFunding: real, now: real, windowMinutes: int): bool {
    0 <= Trunc(nextFunding - now) <= windowMinutes * 60
  }

  /** Because of the truncation, the window reaches just under a second
      past the settlement and just under a second beyond its far end. */
  lemma WindowMeaning(nextFunding: real, now: real, windowMinutes: int)
    requires windowMinutes >= 0
    ensures WithinFundingWindow(nextFunding, now, windowMinutes) <==>
      -1.0 < nextFunding - now < (windowMinutes * 60) as real + 1.0
  {
    TruncNonNegative(nextFunding - now);
    TruncAtMost(nextFunding - now, windowMinutes * 60);
  }

  /** The test `arbitrage_loop` applies to each ranked entry. */
  predicate Openable(c: Candidate, now: real) {
    c.annualized >= THRESHOLD_DIFF_Y && c.okxAction != Hold && c.backpackAction != Hold &&
    WithinFundingWindow(c.nextFundingTime as real / 1000.0, now, SETTLEMENT_WINDOW_MIN)
  }

  /** An openable entry has opposite legs, a funding gap of at least 0.07
      a year, a known instrument and equal funding times on both venues. */
  lemma OpenableMeaning(okxSymbol: string, backpackSymbol: string, r: Rates, now: real)
    requires Openable(CandidateOf(okxSymbol, backpackSymbol, r), now)
    ensures okxSymbol in INSTRUMENTS && r.okxFundingTime == r.backpackFundingTime
    ensures r.okxRate != r.backpackRate
    ensures Abs(r.okxRate - r.backpackRate) * 1095.0 >= 0.07
    ensures var c := CandidateOf(okxSymbol, backpackSymbol, r);
      (c.okxAction == Short && c.backpackAction == Long) || (c.okxAction == Long && c.backpackAction == Short)
  {
    DirectionTable(r.okxRate, r.backpackRate);
  }

  // ---------------------------------------------------------------------
  // Sizing inside `arbitrage_loop` and the choice of the entry to open.
  // ---------------------------------------------------------------------

  /** How preparing an entry ends: an exception escapes (the outer handler
      then stops the loop), the entry is skipped (`continue`), or both legs
      are sized. */
  datatype Sizing = Raises | Skip | Sized(price: real, okxQty: real, backpackQty: real)

  /** The size of both legs once a mid price exists. */
  function LegsAt(mid: real, inst: Instrument): (r: Sizing)
    requires mid != 0.0 && inst.minsz > 0.0 && inst.ctVal > 0.0
    ensures r.Skip? || r.Sized?
  {
    var raw := CalcQty(mid, MAX_ORDER_USD, MAX_LEVERAGE, inst.ctVal);
    var okxQty := RoundDownToMin(raw, inst.minsz);
    var backpackQty := okxQty * inst.ctVal;
    if okxQty <= 0.0 || backpackQty <= 0.0 then Skip else Sized(mid, okxQty, backpackQty)
  }

  /** As written: the size is computed from `(okx_price + backpack_price) / 2`
      before the `if not price` guard, so a missing ticker price raises a
      TypeError (and a zero sum a ZeroDivisionError) instead of skipping;
      a zero price that does not zero the sum is skipped by the guard. */
  function SizeAsWritten(okxSymbol: string, okxPrice: Option<real>, backpackPrice: Option<real>): (r: Sizing)
    ensures okxPrice.None? || backpackPrice.None? ==> r.Raises?
    ensures r.Sized? ==> okxPrice.Some? && backpackPrice.Some? && okxPrice.value != 0.0 && backpackPrice.value != 0.0
  {
    if okxSymbol !in INSTRUMENTS then Raises
    else if okxPrice.None? || backpackPrice.None? then Raises
    else
      var mid := (okxPrice.value + backpackPrice.value) / 2.0;
      if mid == 0.0 then Raises
      else
        InstrumentTable();
        var legs := LegsAt(mid, INSTRUMENTS[okxSymbol]);
        if okxPrice.value == 0.0 || backpackPrice.value == 0.0 then Skip else legs
  }

  /** Corrected: the guard on a missing or zero price comes first, so such
      an entry is skipped and the loop moves on. */
  function SizeCorrected(okxSymbol: string, okxPrice: Option<real>, backpackPrice: Option<real>): (r: Sizing)
    ensures okxSymbol in INSTRUMENTS ==> !r.Raises?
    ensures okxPrice.None? || backpackPrice.None? ==> r.Raises? || r.Skip?
  {
    if okxSymbol !in INSTRUMENTS then Raises
    else if okxPrice.None? || backpackPrice.None? || okxPrice.value == 0.0 || backpackPrice.value == 0.0 then Skip
    else
      var mid := (okxPrice.value + backpackPrice.value) / 2.0;
      if mid == 0.0 then Skip
      else
        InstrumentTable();
        LegsAt(mid, INSTRUMENTS[okxSymbol])
  }

  /** Sized legs are positive, the OKX leg is a whole number of minimum
      sizes at most the raw contract count, and the Backpack leg is the OKX
      leg converted to coins. */
  lemma SizedLegs(okxSymbol: string, okxPrice: Option<real>, backpackPrice: Option<real>)
    requires SizeCorrected(okxSymbol, okxPrice, backpackPrice).Sized?
    ensures var s := SizeCorrected(okxSymbol, okxPrice, backpackPrice);
      var inst := INSTRUMENTS[okxSymbol];
      okxSymbol in INSTRUMENTS && okxPrice.Some? && backpackPrice.Some? &&
      s.price == (okxPrice.value + backpackPrice.value) / 2.0 && s.price != 0.0 &&
      s.okxQty > 0.0 && s.backpackQty > 0.0 &&
      s.okxQty <= CalcQty(s.price, MAX_ORDER_USD, MAX_LEVERAGE, inst.ctVal) &&
      (exists k: int :: s.okxQty == Times(k, inst.minsz)) &&
      s.backpackQty == s.okxQty * inst.ctVal
  {
    InstrumentTable();
    var inst := INSTRUMENTS[okxSymbol];
    var mid := (okxPrice.value + backpackPrice.value) / 2.0;
    RoundDownBounds(CalcQty(mid, MAX_ORDER_USD, MAX_LEVERAGE, inst.ctVal), inst.minsz);
  }

  /** Where the two differ, the written code raises and the corrected one
      skips; where the written code does not raise, they agree. */
  lemma SizingAgrees(okxSymbol: string, okxPrice: Option<real>, backpackPrice: Option<real>)
    ensures !SizeAsWritten(okxSymbol, okxPrice, backpackPrice).Raises? ==>
      SizeAsWritten(okxSymbol, okxPrice, backpackPrice) == SizeCorrected(okxSymbol, okxPrice, backpackPrice)
    ensures SizeAsWritten(okxSymbol, okxPrice, backpackPrice) != SizeCorrected(okxSymbol, okxPrice, backpackPrice) ==>
      SizeAsWritten(okxSymbol, okxPrice, backpackPrice).Raises? && SizeCorrected(okxSymbol, okxPrice, backpackPrice).Skip?
  {
  }

  /** A missing Backpack ticker for SOL: the written code raises where the
      evidently intended guard skips the entry. */
  lemma MissingTickerRaises()
    ensures SizeAsWritten("SOL-USDT-SWAP", Some(150.0), None) == Raises
    ensures SizeCorrected("SOL-USDT-SWAP", Some(150.0), None) == Skip
  {
  }

  /** How one pass over the ranked entries ends. */
  datatype Outcome = Opened(c: Candidate, legs: Sizing) | NothingOpened | Stopped

  /** The first openable entry whose sizing succeeds is opened; skipped
      entries fall through to the next; a raised exception stops the
      loop. `prices` gives each entry's (OKX, Backpack) ticker price. */
  function Choose(results: seq<Candidate>, prices: seq<(Option<real>, Option<real>)>, now: real, corrected: bool): (o: Outcome)
    requires |prices| == |results|
    ensures o.Opened? ==> o.legs.Sized? && Openable(o.c, now) && o.c in results
    ensures corrected && (forall i :: 0 <= i < |results| ==> results[i].okxSymbol in INSTRUMENTS) ==> !o.Stopped?
    decreases |results|
  {
    if |results| == 0 then NothingOpened
    else
      var c := results[0];
      if !Openable(c, now) then Choose(results[1..], prices[1..], now, corrected)
      else
        var s := if corrected then SizeCorrected(c.okxSymbol, prices[0].0, prices[0].1)
                 else SizeAsWritten(c.okxSymbol, prices[0].0, prices[0].1);
        match s
        case Raises => Stopped
        case Skip => Choose(results[1..], prices[1..], now, corrected)
        case Sized(_, _, _) => Opened(c, s)
  }

  // ---------------------------------------------------------------------
  // Order sides.
  // ---------------------------------------------------------------------

  datatype OkxSide = Buy | Sell
  datatype BackpackSide = Bid | Ask

  /** `execute_okx_order_swap`: anything but long/short raises (None);
      short sells and long buys. */
  function OkxOpenSide(a: Action): (r: Option<OkxSide>)
    ensures r.None? <==> a == Hold
  {
    match a
    case Hold => None
    case Short => Some(Sell)
    case Long => Some(Buy)
  }

  /** `close_okx_position_by_order_id`: buy back a sell, sell anything else. */
  function OkxCloseSide(side: OkxSide): (r: OkxSide)
    ensures r != side
  {
    if side == Sell then Buy else Sell
  }

  /** `execute_backpack_order`: anything but long/short raises; long bids
      and short asks. */
  function BackpackOpenSide(a: Action): (r: Option<BackpackSide>)
    ensures r.None? <==> a == Hold
  {
    match a
    case Hold => None
    case Long => Some(Bid)
    case Short => Some(Ask)
  }

  /** `close_backpack_position_by_order_id`: a Bid is closed short (Ask),
      anything else long (Bid). */
  function BackpackCloseSide(side: BackpackSide): (r: BackpackSide)
    ensures r != side
  {
    var closeShort := side == Bid;
    if closeShort then Ask else Bid
  }

  /** Closing always trades against the opening side, on both venues. */
  lemma CloseReverses(a: Action)
    requires a != Hold
    ensures OkxCloseSide(OkxOpenSide(a).value) != OkxOpenSide(a).value
    ensures BackpackCloseSide(BackpackOpenSide(a).value) != BackpackOpenSide(a).value
  {
  }

  /** The legs of a traded pair hedge each other: OKX sells exactly when
      Backpack bids. */
  lemma LegsHedge(okxRate: real, backpackRate: real)
    requires okxRate != backpackRate
    ensures var d := Directions(okxRate, backpackRate);
      OkxOpenSide(d.0).Some? && BackpackOpenSide(d.1).Some? &&
      (OkxOpenSide(d.0).value == Sell <==> BackpackOpenSide(d.1).value == Bid)
  {
    DirectionTable(okxRate, backpackRate);
  }
}
