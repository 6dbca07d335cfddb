/** The SOL/USDC spot volume bot on Backpack: the scan for resting orders
    in a USD range, the balance check that picks the side to trade, the
    slippage band around the last price, and the alternation of BUY and
    SELL rounds with the rule that skips one round after an unfilled
    order. Exchange calls, sleeps and randomness are inputs. */
module VolumeBot {
  import opened Common

  const SYMBOL: string := "SOL_USDC"
  const MIN_ORDER_USD: real := 30.0
  const MAX_ORDER_USD: real := 50.0
  const SLIPPAGE: real := 0.0001

  datatype Side = Buy | Sell

  // ---------------------------------------------------------------------
  // `order_exists_in_range`

  /** A resting order, as listed by the exchange. */
  datatype Order = Order(symbol: string, price: real, quantity: real)

  /** An order of this bot's symbol whose notional lies in [lo, hi]. */
  predicate InRange(o: Order, lo: real, hi: real) {
    o.symbol == SYMBOL && lo <= o.price * o.quantity <= hi
  }

  /** `order_exists_in_range`: scans the orders, skipping other symbols,
      and answers whether one has a notional in [minUsd, maxUsd]. */
  method OrderExistsInRange(orders: seq<Order>, minUsd: real, maxUsd: real) returns (found: bool)
    ensures found <==> exists k :: 0 <= k < |orders| && InRange(orders[k], minUsd, maxUsd)
  {
    for i := 0 to |orders|
      invariant forall k :: 0 <= k < i ==> !InRange(orders[k], minUsd, maxUsd)
    {
      var order := orders[i];
      if order.symbol != SYMBOL {
        continue;
      }
      var usdValue := order.price * order.quantity;
      if minUsd <= usdValue <= maxUsd {
        return true;
      }
    }
    return false;
  }

  // ---------------------------------------------------------------------
  // Python's `round(x, 2)`

  /** Rounding to the nearest integer, ties to the even one (Python's
      `round`). */
  function RoundHalfEven(y: real): (r: int)
    ensures y - 0.5 <= r as real <= y + 0.5
  {
    var f := Floor(y);
    var d := y - f as real;
    if d < 0.5 then f
    else if d > 0.5 then f + 1
    else if f % 2 == 0 then f else f + 1
  }

  /** Rounding never reverses the order of two values. */
  lemma RoundHalfEvenMonotone(a: real, b: real)
    requires a <= b
    ensures RoundHalfEven(a) <= RoundHalfEven(b)
  {
    var fa := Floor(a);
    var fb := Floor(b);
    assert fa <= fb;
    if fa < fb {
      assert RoundHalfEven(a) <= fa + 1 <= fb <= RoundHalfEven(b);
    }
  }

  /** `round(x, 2)`: to the nearest hundredth, ties to even. */
  function Round2(x: real): (r: real)
    ensures x - 0.005 <= r <= x + 0.005
  {
    RoundHalfEven(x * 100.0) as real / 100.0
  }

  lemma Round2Monotone(a: real, b: real)
    requires a <= b
    ensures Round2(a) <= Round2(b)
  {
    RoundHalfEvenMonotone(a * 100.0, b * 100.0);
  }

  // ---------------------------------------------------------------------
  // Price band

  /** `low_price` and `high_price`: the last price moved down and up by
      the slippage and rounded to cents. */
  function BuyPrice(last: real): real {
    Round2(last * (1.0 - SLIPPAGE))
  }

  function SellPrice(last: real): real {
    Round2(last * (1.0 + SLIPPAGE))
  }

  /** `base_price`: a BUY is placed at the low price, a SELL at the high
      one. */
  function BasePrice(side: Side, last: real): real {
    if side == Buy then BuyPrice(last) else SellPrice(last)
  }

  /** For a non-negative last price the BUY price never exceeds the SELL
      price, and both lie within a cent of the slippage band. */
  lemma BandOrdered(last: real)
    requires last >= 0.0
    ensures BuyPrice(last) <= SellPrice(last)
    ensures last * (1.0 - SLIPPAGE) - 0.005 <= BuyPrice(last)
    ensures SellPrice(last) <= last * (1.0 + SLIPPAGE) + 0.005
  {
    Round2Monotone(last * (1.0 - SLIPPAGE), last * (1.0 + SLIPPAGE));
  }

  /** `quantity = round(usd_value / base_price, 2)`: SOL for the chosen
      USD value (drawn between MIN_ORDER_USD and MAX_ORDER_USD) at the
      base price. */
  function Quantity(usdValue: real, basePrice: real): real
    requires basePrice != 0.0
  {
    Round2(usdValue / basePrice)
  }

  /** At a positive price the order's notional misses the chosen USD value
      by at most half a hundredth of a SOL at that price. */
  lemma QuantityNotional(usdValue: real, basePrice: real)
    requires basePrice > 0.0
    ensures usdValue - 0.005 * basePrice <= Quantity(usdValue, basePrice) * basePrice
    ensures Quantity(usdValue, basePrice) * basePrice <= usdValue + 0.005 * basePrice
  {
    NotionalBand(Quantity(usdValue, basePrice), usdValue, basePrice);
  }

  /** A larger USD value never buys less. */
  lemma QuantityMonotone(usdValue: real, usdValue': real, basePrice: real)
    requires basePrice > 0.0 && usdValue <= usdValue'
    ensures Quantity(usdValue, basePrice) <= Quantity(usdValue', basePrice)
  {
    DivMonotone(usdValue, usdValue', basePrice);
    Round2Monotone(usdValue / basePrice, usdValue' / basePrice);
  }

  /** A quantity within half a hundredth of usd / c has a notional at
      price c within 0.005 * c of usd. */
  lemma NotionalBand(q: real, usd: real, c: real)
    requires c > 0.0 && usd / c - 0.005 <= q <= usd / c + 0.005
    ensures usd - 0.005 * c <= q * c <= usd + 0.005 * c
  {
    var x := usd / c;
    MulAtMost(x - 0.005, q, c);
    MulAtMost(q, x + 0.005, c);
    assert (x - 0.005) * c == usd - 0.005 * c;
    assert (x + 0.005) * c == usd + 0.005 * c;
  }

  lemma DivMonotone(a: real, b: real, c: real)
    requires a <= b && c > 0.0
    ensures a / c <= b / c
  {
    assert b / c - a / c == (b - a) / c;
    assert (b - a) / c >= 0.0;
  }


  // ---------------------------------------------------------------------
  // `check_balance`

  datatype BalanceCheck = Insufficient | Trade(side: Side)

  /** The decision of `check_balance` on the rounded needs and the
      available balances: give up when neither side can be funded, keep
      the requested side when it can, otherwise trade the other side. */
  function BalanceDecision(side: Side, solNeed: real, usdcNeed: real, solBalance: real, usdcBalance: real): (r: BalanceCheck)
    ensures r == Insufficient <==> solNeed > solBalance && usdcNeed > usdcBalance
    ensures side == Buy && usdcNeed <= usdcBalance ==> r == Trade(Buy)
    ensures side == Sell && solNeed <= solBalance ==> r == Trade(Sell)
    ensures r == Trade(Buy) ==> usdcNeed <= usdcBalance
    ensures r == Trade(Sell) ==> solNeed <= solBalance
    ensures r.Trade? && r.side != side ==>
      (side == Buy ==> usdcNeed > usdcBalance) && (side == Sell ==> solNeed > solBalance)
  {
    if solNeed > solBalance && usdcNeed > usdcBalance then Insufficient
    else match side
      case Buy => if usdcNeed <= usdcBalance then Trade(Buy) else Trade(Sell)
      case Sell => if solNeed <= solBalance then Trade(Sell) else Trade(Buy)
  }

  /** `check_balance`: a missing balance entry counts as 0; the needs are
      the order's USDC value and its SOL quantity, rounded to cents. */
  function CheckBalance(price: real, quantity: real, side: Side, sol: Option<real>, usdc: Option<real>): (r: BalanceCheck)
    ensures r == BalanceDecision(side, Round2(quantity), Round2(price * quantity), sol.GetOr(0.0), usdc.GetOr(0.0))
    ensures sol.None? && usdc.None? && Round2(quantity) > 0.0 && Round2(price * quantity) > 0.0 ==> r == Insufficient
  {
    var solBalance := sol.GetOr(0.0);
    var usdcBalance := usdc.GetOr(0.0);
    var usdcNeed := Round2(price * quantity);
    var solNeed := Round2(quantity);
    BalanceDecision(side, solNeed, usdcNeed, solBalance, usdcBalance)
  }

  // ---------------------------------------------------------------------
  // Rounds of `run_volume_loop`

  /** What happened to an order the loop tried to place: the balance
      check ended the thread, the exchange returned no order id, or the
      order was placed and then filled or not within the wait. */
  datatype Attempt = NoFunds | NoOrderId | Placed(filled: bool)

  /** One round of the loop: skipped, or an order attempt. */
  datatype Round = Skipped(side: Side) | Ordered(side: Side, attempt: Attempt)

  /** The side of round k: the inner `for side in ["BUY", "SELL"]`
      alternates, starting with BUY. */
  function SideAt(k: nat): Side {
    if k % 2 == 0 then Buy else Sell
  }

  /** The rounds from round k on, when the attempts from index `next` on
      are still to come and the `filled` flag is as given: an unfilled
      order skips the next round and resets the flag; a missing order id
      leaves it set; running out of funds ends the thread. */
  function Rounds(attempts: seq<Attempt>, next: nat, filled: bool, k: nat): seq<Round>
    decreases |attempts| - next, if filled then 0 else 1
  {
    if next >= |attempts| then []
    else if !filled then [Skipped(SideAt(k))] + Rounds(attempts, next, true, k + 1)
    else match attempts[next]
      case NoFunds => [Ordered(SideAt(k), NoFunds)]
      case NoOrderId => [Ordered(SideAt(k), NoOrderId)] + Rounds(attempts, next + 1, true, k + 1)
      case Placed(f) => [Ordered(SideAt(k), Placed(f))] + Rounds(attempts, next + 1, f, k + 1)
  }

  /** The `filled` flag after the attempt at index i (a failed placement
      leaves it set). */
  function FilledAfter(a: Attempt): bool {
    match a
    case Placed(f) => f
    case _ => true
  }

  /** The rounds after the attempt at `next`, when the thread goes on. */
  lemma RoundsAttempt(attempts: seq<Attempt>, next: nat, k: nat)
    requires next < |attempts| && !attempts[next].NoFunds?
    ensures Rounds(attempts, next, true, k) ==
      [Ordered(SideAt(k), attempts[next])] + Rounds(attempts, next + 1, FilledAfter(attempts[next]), k + 1)
  {
  }

  /** Round j of the run started at round k trades the side of round
      k + j: the rounds alternate BUY and SELL whatever happens. */
  lemma {:induction false} RoundsSides(attempts: seq<Attempt>, next: nat, filled: bool, k: nat)
    ensures forall j :: 0 <= j < |Rounds(attempts, next, filled, k)| ==>
      Rounds(attempts, next, filled, k)[j].side == SideAt(k + j)
    decreases |attempts| - next, if filled then 0 else 1
  {
    if next < |attempts| {
      if !filled {
        RoundsSides(attempts, next, true, k + 1);
      } else if !attempts[next].NoFunds? {
        RoundsSides(attempts, next + 1, FilledAfter(attempts[next]), k + 1);
        RoundsAttempt(attempts, next, k);
      }
    }
  }

  /** Skips sit exactly after orders that did not fill. */
  predicate SkipsFollowUnfilled(r: seq<Round>) {
    (forall j :: 0 < j < |r| && r[j].Skipped? ==> r[j - 1] == Ordered(r[j - 1].side, Placed(false))) &&
    (forall j :: 0 <= j < |r| - 1 && r[j] == Ordered(r[j].side, Placed(false)) ==> r[j + 1].Skipped?)
  }

  /** An attempt that ran out of funds is the last round. */
  predicate NoFundsEnds(r: seq<Round>) {
    forall j :: 0 <= j < |r| && r[j].Ordered? && r[j].attempt == NoFunds ==> j == |r| - 1
  }

  /** A round is skipped only right after an order that did not fill, and
      such an order is always followed by a skip when the loop goes on; a
      skip is never followed by another skip. */
  lemma {:induction false} SkipExactlyOnce(attempts: seq<Attempt>, next: nat, filled: bool, k: nat)
    ensures SkipsFollowUnfilled(Rounds(attempts, next, filled, k))
    ensures |Rounds(attempts, next, filled, k)| > 0 && Rounds(attempts, next, filled, k)[0].Skipped? <==>
      !filled && next < |attempts|
    decreases |attempts| - next, if filled then 0 else 1
  {
    if next < |attempts| {
      var r := Rounds(attempts, next, filled, k);
      if !filled {
        var rest := Rounds(attempts, next, true, k + 1);
        SkipExactlyOnce(attempts, next, true, k + 1);
        assert r == [Skipped(SideAt(k))] + rest;
        assert forall j :: 0 < j < |r| ==> r[j] == rest[j - 1];
      } else if !attempts[next].NoFunds? {
        var rest := Rounds(attempts, next + 1, FilledAfter(attempts[next]), k + 1);
        SkipExactlyOnce(attempts, next + 1, FilledAfter(attempts[next]), k + 1);
        RoundsAttempt(attempts, next, k);
        assert r == [Ordered(SideAt(k), attempts[next])] + rest;
        assert forall j :: 0 < j < |r| ==> r[j] == rest[j - 1];
      }
    }
  }

  /** Running out of funds ends the thread: it is the last round. */
  lemma {:induction false} NoFundsIsLast(attempts: seq<Attempt>, next: nat, filled: bool, k: nat)
    ensures NoFundsEnds(Rounds(attempts, next, filled, k))
    decreases |attempts| - next, if filled then 0 else 1
  {
    if next < |attempts| {
      var r := Rounds(attempts, next, filled, k);
      var rest;
      if !filled {
        rest := Rounds(attempts, next, true, k + 1);
        NoFundsIsLast(attempts, next, true, k + 1);
        assert r == [Skipped(SideAt(k))] + rest;
      } else if !attempts[next].NoFunds? {
        rest := Rounds(attempts, next + 1, FilledAfter(attempts[next]), k + 1);
        NoFundsIsLast(attempts, next + 1, FilledAfter(attempts[next]), k + 1);
        RoundsAttempt(attempts, next, k);
        assert r == [Ordered(SideAt(k), attempts[next])] + rest;
      } else {
        return;
      }
      forall j | 0 < j < |r| && r[j].Ordered? && r[j].attempt == NoFunds
        ensures j == |r| - 1
      {
        assert r[j] == rest[j - 1];
      }
      assert !(r[0].Ordered? && r[0].attempt == NoFunds);
    }
  }

  /** The rounds of `run_volume_loop`, starting with `filled = True`, for
      the given sequence of order attempts. */
  method RunVolumeLoop(attempts: seq<Attempt>) returns (rounds: seq<Round>)
    ensures rounds == Rounds(attempts, 0, true, 0)
  {
    rounds := [];
    var filled := true;
    var next := 0;
    while next < |attempts|
      invariant 0 <= next <= |attempts|
      invariant rounds + Rounds(attempts, next, filled, |rounds|) == Rounds(attempts, 0, true, 0)
      decreases |attempts| - next, if filled then 0 else 1
    {
      var side := SideAt(|rounds|);
      if !filled {
        AppendAssoc(rounds, Skipped(side), Rounds(attempts, next, true, |rounds| + 1));
        rounds := rounds + [Skipped(side)];
        filled := true;
        continue;
      }
      var attempt := attempts[next];
      if attempt.NoFunds? {
        rounds := rounds + [Ordered(side, attempt)];
        return;
      }
      RoundsAttempt(attempts, next, |rounds|);
      AppendAssoc(rounds, Ordered(side, attempt), Rounds(attempts, next + 1, FilledAfter(attempt), |rounds| + 1));
      rounds := rounds + [Ordered(side, attempt)];
      next := next + 1;
      match attempt
      case NoOrderId =>
      case Placed(f) =>
        filled := f;
    }
  }

  lemma AppendAssoc(a: seq<Round>, x: Round, b: seq<Round>)
    ensures a + ([x] + b) == (a + [x]) + b
  {
  }
}
