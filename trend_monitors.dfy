/** The exit rules of the position monitors of the three trend bots. Each
    monitor polls a ticker in an endless loop; here the polled prices are a
    given sequence, and a monitor reports the index of the poll at which a
    rule closes the position (None when no rule fires on the given polls),
    together with the state its loop keeps. */
module TrendMonitors {
  import opened Common
  import opened TrendStrategies
  import opened LinearFit

  // Backpack trend bot (trend_trade_strategy_bot.py)
  const BACKPACK_LOSS_LIMIT: real := -0.02
  const BACKPACK_PROFIT_LIMIT: real := 0.05
  const BACKPACK_MONITOR_POINTS: nat := 9
  // Backpack EMA-exit bot (trend_trade_strategy_ema_bot.py)
  const EMA_LOSS_LIMIT: real := -0.10
  const EMA_PROFIT_LIMIT: real := 0.3
  const EMA_PROFIT_TRIGGER: real := 0.075
  const EMA_HISTORY: nat := 60
  const EMA_SHORT_LEN: nat := 9
  const EMA_LONG_LEN: nat := 21
  // OKX trend bot (okx_trend_trade_strategy_bot.py): literals of its loop
  const OKX_LOSS: real := -0.2
  const OKX_DRAWDOWN: real := 0.3
  const OKX_HISTORY: nat := 6
  /** Both Backpack monitors arm the "halve the profit" stop at 4%. */
  const HALVING_START: real := 0.04
  /** A fitted slope closer to 0 than this counts as a flat market. */
  const SLOPE_FLAT: real := 0.001

  /** The leveraged return of a position opened at `entry` when the
      price is `cur`; every side other than long is treated as short. */
  function Pnl(entry: real, cur: real, leverage: real, side: PositionSide): real
    requires entry != 0.0
  {
    if side == Long then (cur - entry) / entry * leverage
    else (entry - cur) / entry * leverage
  }

  /** With a positive entry and leverage, the return is positive exactly
      when the price moved the position's way. */
  lemma PnlSign(entry: real, cur: real, leverage: real, side: PositionSide)
    requires entry > 0.0 && leverage > 0.0
    ensures Pnl(entry, cur, leverage, side) > 0.0 <==>
      (if side == Long then cur > entry else cur < entry)
  {
    var d := if side == Long then cur - entry else entry - cur;
    assert Pnl(entry, cur, leverage, side) == (d / entry) * leverage;
    if d > 0.0 {
      assert d / entry > 0.0;
      MulPositive(d / entry, leverage);
    } else {
      assert d / entry <= 0.0;
      MulNonPositive(d / entry, leverage);
    }
  }


  lemma MulNonPositive(x: real, y: real)
    requires x <= 0.0 && y > 0.0
    ensures x * y <= 0.0
  {
  }

  /** `max_pnl` after the polls `ps`: starts at 0 and keeps the largest
      return seen. */
  function MaxPnl(entry: real, leverage: real, side: PositionSide, ps: seq<real>): (r: real)
    requires entry != 0.0
    ensures r >= 0.0
    ensures forall i :: 0 <= i < |ps| ==> r >= Pnl(entry, ps[i], leverage, side)
    ensures r == 0.0 || exists i :: 0 <= i < |ps| && r == Pnl(entry, ps[i], leverage, side)
    decreases |ps|
  {
    if |ps| == 0 then 0.0
    else
      var prev := MaxPnl(entry, leverage, side, ps[..|ps| - 1]);
      var pnl := Pnl(entry, ps[|ps| - 1], leverage, side);
      assert forall i :: 0 <= i < |ps| - 1 ==> ps[..|ps| - 1][i] == ps[i];
      if prev >= pnl then prev else pnl
  }

  /** `max_pnl` never decreases from one poll to the next. */
  lemma {:induction false} MaxPnlMonotone(entry: real, leverage: real, side: PositionSide, ps: seq<real>, k: nat)
    requires entry != 0.0 && k <= |ps|
    ensures MaxPnl(entry, leverage, side, ps[..k]) <= MaxPnl(entry, leverage, side, ps)
    decreases |ps| - k
  {
    if k < |ps| {
      var ps' := ps[..k + 1];
      assert ps'[..k] == ps[..k];
      assert ps'[..|ps'| - 1] == ps[..k];
      MaxPnlMonotone(entry, leverage, side, ps, k + 1);
    } else {
      assert ps[..k] == ps;
    }
  }

  /** `math.ceil((max_pnl / 2) * 100) / 100`: half the best return,
      rounded up to whole percent. */
  function HalvingStop(maxPnl: real): real {
    Ceil(maxPnl / 2.0 * 100.0) as real / 100.0
  }

  /** The stop lies between half the best return and a hundredth above it,
      so the halving rule fires only once at least half of the best return
      has been given back. */
  lemma HalvingStopBounds(maxPnl: real)
    ensures maxPnl / 2.0 <= HalvingStop(maxPnl) < maxPnl / 2.0 + 0.01
  {
    var c := Ceil(maxPnl / 2.0 * 100.0);
    assert c as real - 1.0 < maxPnl / 2.0 * 100.0 <= c as real;
  }

  /** The halving rule: armed at 4%, it fires when the give-back from the
      best return reaches the stop. */
  predicate HalvingFires(pnl: real, maxPnl: real) {
    maxPnl >= HALVING_START && maxPnl - pnl >= HalvingStop(maxPnl)
  }

  /** When the halving rule fires, the current return is at most half of
      the best one. */
  lemma HalvingFiresMeaning(pnl: real, maxPnl: real)
    requires HalvingFires(pnl, maxPnl)
    ensures pnl <= maxPnl / 2.0
  {
    HalvingStopBounds(maxPnl);
  }

  /** The prices a monitor's history has seen after k polls: its initial
      contents `head` followed by the first k polled prices. */
  function Seen(head: seq<real>, ps: seq<real>, k: nat): seq<real>
    requires k <= |ps|
  {
    head + ps[..k]
  }

  /** One poll more: the `append` + `pop(0)` window over what was seen. */
  lemma PolledWindow(head: seq<real>, ps: seq<real>, i: nat, n: nat)
    requires i < |ps| && n > 0
    ensures PushCapped(LastN(Seen(head, ps, i), n), ps[i], n) == LastN(Seen(head, ps, i + 1), n)
  {
    PushCappedWindow(head + ps[..i], ps[i], n);
    assert (head + ps[..i]) + [ps[i]] == head + ps[..i + 1];
  }

  /** One poll more: `max_pnl = max(max_pnl, pnl)`. */
  lemma MaxPnlStep(entry: real, leverage: real, side: PositionSide, ps: seq<real>, i: nat)
    requires entry != 0.0 && i < |ps|
    ensures MaxPnl(entry, leverage, side, ps[..i + 1]) ==
      var prev := MaxPnl(entry, leverage, side, ps[..i]);
      var pnl := Pnl(entry, ps[i], leverage, side);
      if prev >= pnl then prev else pnl
  {
    assert ps[..i + 1][..i] == ps[..i];
  }

  /** The number of polls a monitor consumed. */
  function Consumed(exitAt: Option<nat>, polls: nat): nat {
    if exitAt.Some? && exitAt.value < polls then exitAt.value + 1 else polls
  }

  /** The trend rule shared by the Backpack and OKX monitors: once the
      history holds its full n prices, close when the fitted slope points
      against the position or is flat. */
  predicate SlopeExit(side: PositionSide, h: seq<real>, n: nat) {
    |h| == n && n >= 2 &&
    var k := Slope(h);
    (side == Long && k < 0.0) || (side == Short && k > 0.0) || -SLOPE_FLAT < k < SLOPE_FLAT
  }

  /** On a full history whose prices lie on a line of slope b, the rule
      closes exactly when b points against the position or is flat; a
      constant run of prices always closes. */
  lemma SlopeExitOnLine(side: PositionSide, h: seq<real>, n: nat, a: real, b: real)
    requires |h| == n && n >= 2 && OnLine(h, a, b)
    ensures SlopeExit(side, h, n) <==>
      (side == Long && b < 0.0) || (side == Short && b > 0.0) || -SLOPE_FLAT < b < SLOPE_FLAT
    ensures b == 0.0 ==> SlopeExit(side, h, n)
  {
    SlopeOfLine(h, a, b);
  }

  // ---------------------------------------------------------------------
  // Backpack trend bot: `monitor_position`

  /** The return rules of `monitor_position` at one poll: stop loss, take
      profit, and the halving stop. */
  predicate BackpackExit(pnl: real, maxPnl: real) {
    pnl <= BACKPACK_LOSS_LIMIT || pnl >= BACKPACK_PROFIT_LIMIT || HalvingFires(pnl, maxPnl)
  }

  /** All rules of `monitor_position` at poll i: the return rules, then the
      slope of the 9 kept prices. */
  predicate BackpackExitsAt(entry: real, leverage: real, side: PositionSide, ps: seq<real>, i: nat)
    requires entry != 0.0 && i < |ps|
  {
    BackpackExit(Pnl(entry, ps[i], leverage, side), MaxPnl(entry, leverage, side, ps[..i + 1])) ||
    SlopeExit(side, LastN(Seen([entry], ps, i + 1), BACKPACK_MONITOR_POINTS), BACKPACK_MONITOR_POINTS)
  }

  /** The Backpack monitor stays open through the first n polls. */
  predicate BackpackHoldsFor(entry: real, leverage: real, side: PositionSide, ps: seq<real>, n: nat)
    requires entry != 0.0 && n <= |ps|
    decreases n
  {
    n == 0 || (BackpackHoldsFor(entry, leverage, side, ps, n - 1) && !BackpackExitsAt(entry, leverage, side, ps, n - 1))
  }

  /** Holding for n polls means no rule fired at any of them. */
  lemma {:induction false} BackpackHoldsForMeaning(entry: real, leverage: real, side: PositionSide, ps: seq<real>, n: nat)
    requires entry != 0.0 && n <= |ps|
    ensures BackpackHoldsFor(entry, leverage, side, ps, n) <==>
      forall j :: 0 <= j < n ==> !BackpackExitsAt(entry, leverage, side, ps, j)
    decreases n
  {
    if n > 0 {
      BackpackHoldsForMeaning(entry, leverage, side, ps, n - 1);
    }
  }

  /** While every return stays strictly between the stop loss and the 4%
      arming level, only the slope rule can close the Backpack monitor,
      and it cannot before the history is full (the 8th poll). */
  lemma BackpackHoldsInBand(entry: real, leverage: real, side: PositionSide, ps: seq<real>)
    requires entry != 0.0
    requires forall i :: 0 <= i < |ps| ==>
      BACKPACK_LOSS_LIMIT < Pnl(entry, ps[i], leverage, side) < HALVING_START
    ensures forall i :: 0 <= i < |ps| && BackpackExitsAt(entry, leverage, side, ps, i) ==>
      SlopeExit(side, LastN(Seen([entry], ps, i + 1), BACKPACK_MONITOR_POINTS), BACKPACK_MONITOR_POINTS) &&
      i + 2 >= BACKPACK_MONITOR_POINTS
  {
    forall i | 0 <= i < |ps| && BackpackExitsAt(entry, leverage, side, ps, i)
      ensures SlopeExit(side, LastN(Seen([entry], ps, i + 1), BACKPACK_MONITOR_POINTS), BACKPACK_MONITOR_POINTS) &&
        i + 2 >= BACKPACK_MONITOR_POINTS
    {
      var pre := ps[..i + 1];
      assert forall j :: 0 <= j < |pre| ==> pre[j] == ps[j];
      var m := MaxPnl(entry, leverage, side, pre);
      assert m < HALVING_START;
    }
  }

  /** `monitor_position` of the Backpack trend bot over the polled
      prices: the first poll at which a kept rule fires, the trimmed price
      history and `max_pnl`. */
  method MonitorBackpack(entry: real, side: PositionSide, leverage: real, prices: seq<real>)
    returns (exitAt: Option<nat>, history: seq<real>, maxPnl: real)
    requires entry != 0.0
    ensures exitAt.Some? ==>
      exitAt.value < |prices| && BackpackExitsAt(entry, leverage, side, prices, exitAt.value)
    ensures BackpackHoldsFor(entry, leverage, side, prices, if exitAt.Some? then exitAt.value else |prices|)
    ensures history == LastN(Seen([entry], prices, Consumed(exitAt, |prices|)), BACKPACK_MONITOR_POINTS)
    ensures maxPnl == MaxPnl(entry, leverage, side, prices[..Consumed(exitAt, |prices|)])
  {
    history := [entry];
    maxPnl := 0.0;
    exitAt := None;
    var i := 0;
    while i < |prices|
      invariant 0 <= i <= |prices|
      invariant BackpackHoldsFor(entry, leverage, side, prices, i)
      invariant history == LastN(Seen([entry], prices, i), BACKPACK_MONITOR_POINTS)
      invariant maxPnl == MaxPnl(entry, leverage, side, prices[..i])
    {
      var closing;
      closing, history, maxPnl := BackpackPoll(entry, side, leverage, prices, i, history, maxPnl);
      if closing {
        exitAt := Some(i);
        assert Consumed(exitAt, |prices|) == i + 1;
        break;
      }
      i := i + 1;
    }
  }

  /** One iteration of the loop of `monitor_position`: the poll `ps[i]`
      updates the history and `max_pnl`, then the rules run in the
      source's order (stop loss, take profit, halving stop, slope). */
  method BackpackPoll(entry: real, side: PositionSide, leverage: real, ps: seq<real>, i: nat,
                      history: seq<real>, maxPnl: real)
    returns (closing: bool, history': seq<real>, maxPnl': real)
    requires entry != 0.0 && i < |ps|
    requires history == LastN(Seen([entry], ps, i), BACKPACK_MONITOR_POINTS)
    requires maxPnl == MaxPnl(entry, leverage, side, ps[..i])
    ensures closing == BackpackExitsAt(entry, leverage, side, ps, i)
    ensures history' == LastN(Seen([entry], ps, i + 1), BACKPACK_MONITOR_POINTS)
    ensures maxPnl' == MaxPnl(entry, leverage, side, ps[..i + 1])
  {
    var cur := ps[i];
    PolledWindow([entry], ps, i, BACKPACK_MONITOR_POINTS);
    history' := PushCapped(history, cur, BACKPACK_MONITOR_POINTS);
    var pnl := Pnl(entry, cur, leverage, side);
    MaxPnlStep(entry, leverage, side, ps, i);
    maxPnl' := if maxPnl >= pnl then maxPnl else pnl;
    var drawDown := maxPnl' - pnl;
    closing := pnl <= BACKPACK_LOSS_LIMIT || pnl >= BACKPACK_PROFIT_LIMIT;
    if !closing && maxPnl' >= HALVING_START {
      var stop := HalvingStop(maxPnl');
      closing := drawDown >= stop;
    }
    if !closing && |history'| == BACKPACK_MONITOR_POINTS {
      var k := Slope(history');
      closing := (side == Long && k < 0.0) || (side == Short && k > 0.0) || -SLOPE_FLAT < k < SLOPE_FLAT;
    }
  }

  // ---------------------------------------------------------------------
  // Backpack EMA-exit bot: `monitor_position_with_ema_exit`

  /** `trigger_reached` after the polls `ps`: latched by the first return
      of at least 7.5%. */
  function Triggered(entry: real, leverage: real, side: PositionSide, ps: seq<real>): bool
    requires entry != 0.0
    decreases |ps|
  {
    |ps| > 0 &&
    (Triggered(entry, leverage, side, ps[..|ps| - 1]) || Pnl(entry, ps[|ps| - 1], leverage, side) >= EMA_PROFIT_TRIGGER)
  }

  /** One poll more: the latch of `trigger_reached`. */
  lemma TriggeredStep(entry: real, leverage: real, side: PositionSide, ps: seq<real>, i: nat)
    requires entry != 0.0 && i < |ps|
    ensures Triggered(entry, leverage, side, ps[..i + 1]) ==
      (Triggered(entry, leverage, side, ps[..i]) || Pnl(entry, ps[i], leverage, side) >= EMA_PROFIT_TRIGGER)
  {
    assert ps[..i + 1][..i] == ps[..i];
  }

  /** The latch is set exactly when some poll reached the trigger. */
  lemma {:induction false} TriggeredMeaning(entry: real, leverage: real, side: PositionSide, ps: seq<real>)
    requires entry != 0.0
    ensures Triggered(entry, leverage, side, ps) <==>
      exists i :: 0 <= i < |ps| && Pnl(entry, ps[i], leverage, side) >= EMA_PROFIT_TRIGGER
    decreases |ps|
  {
    if |ps| > 0 {
      var init := ps[..|ps| - 1];
      TriggeredMeaning(entry, leverage, side, init);
      assert forall i :: 0 <= i < |init| ==> init[i] == ps[i];
      if Pnl(entry, ps[|ps| - 1], leverage, side) < EMA_PROFIT_TRIGGER {
        assert (exists i :: 0 <= i < |ps| && Pnl(entry, ps[i], leverage, side) >= EMA_PROFIT_TRIGGER) ==>
          exists i :: 0 <= i < |init| && Pnl(entry, init[i], leverage, side) >= EMA_PROFIT_TRIGGER;
      }
    }
  }

  /** Once set, the latch stays set. */
  lemma TriggeredStays(entry: real, leverage: real, side: PositionSide, ps: seq<real>, k: nat)
    requires entry != 0.0 && k <= |ps|
    requires Triggered(entry, leverage, side, ps[..k])
    ensures Triggered(entry, leverage, side, ps)
  {
    TriggeredMeaning(entry, leverage, side, ps[..k]);
    TriggeredMeaning(entry, leverage, side, ps);
    var i :| 0 <= i < k && Pnl(entry, ps[..k][i], leverage, side) >= EMA_PROFIT_TRIGGER;
    assert ps[..k][i] == ps[i];
  }

  /** The moving-average exit on the kept history `h`: once 21 prices are
      kept, a long closes when the 9-price mean falls below the 21-price
      mean and a short when it rises above it. */
  predicate MeanCrossExit(side: PositionSide, h: seq<real>) {
    |h| >= EMA_LONG_LEN &&
    var m9 := Mean(LastN(h, EMA_SHORT_LEN));
    var m21 := Mean(LastN(h, EMA_LONG_LEN));
    (side == Long && m9 < m21) || (side == Short && m9 > m21)
  }

  /** The rules of `monitor_position_with_ema_exit` at one poll: stop
      loss, the halving stop once the trigger was reached, the mean cross,
      and take profit. */
  predicate EmaExitsAt(entry: real, leverage: real, side: PositionSide, ps: seq<real>, i: nat)
    requires entry != 0.0 && i < |ps|
  {
    var seen := ps[..i + 1];
    var pnl := Pnl(entry, ps[i], leverage, side);
    pnl <= EMA_LOSS_LIMIT ||
    (Triggered(entry, leverage, side, seen) && HalvingFires(pnl, MaxPnl(entry, leverage, side, seen))) ||
    MeanCrossExit(side, LastN(seen, EMA_HISTORY)) ||
    pnl >= EMA_PROFIT_LIMIT
  }

  /** The EMA-exit monitor stays open through the first n polls. */
  predicate EmaHoldsFor(entry: real, leverage: real, side: PositionSide, ps: seq<real>, n: nat)
    requires entry != 0.0 && n <= |ps|
    decreases n
  {
    n == 0 || (EmaHoldsFor(entry, leverage, side, ps, n - 1) && !EmaExitsAt(entry, leverage, side, ps, n - 1))
  }

  /** Holding for n polls means no rule fired at any of them. */
  lemma {:induction false} EmaHoldsForMeaning(entry: real, leverage: real, side: PositionSide, ps: seq<real>, n: nat)
    requires entry != 0.0 && n <= |ps|
    ensures EmaHoldsFor(entry, leverage, side, ps, n) <==>
      forall j :: 0 <= j < n ==> !EmaExitsAt(entry, leverage, side, ps, j)
    decreases n
  {
    if n > 0 {
      EmaHoldsForMeaning(entry, leverage, side, ps, n - 1);
    }
  }

  /** The means compared are those of the last 9 and last 21 prices ever
      polled: trimming the history to 60 loses nothing they need. */
  lemma MeanCrossUsesRecentPrices(side: PositionSide, seen: seq<real>)
    ensures MeanCrossExit(side, LastN(seen, EMA_HISTORY)) <==>
      |seen| >= EMA_LONG_LEN &&
      var m9 := Mean(LastN(seen, EMA_SHORT_LEN));
      var m21 := Mean(LastN(seen, EMA_LONG_LEN));
      (side == Long && m9 < m21) || (side == Short && m9 > m21)
  {
    LastNOfLastN(seen, EMA_HISTORY, EMA_SHORT_LEN);
    LastNOfLastN(seen, EMA_HISTORY, EMA_LONG_LEN);
  }

  /** Before any poll reached the 7.5% trigger, the halving stop cannot
      close the position: an exit then comes from the stop loss, the mean
      cross or take profit. */
  lemma EmaHalvingNeedsTrigger(entry: real, leverage: real, side: PositionSide, ps: seq<real>, i: nat)
    requires entry != 0.0 && i < |ps|
    requires forall j :: 0 <= j <= i ==> Pnl(entry, ps[j], leverage, side) < EMA_PROFIT_TRIGGER
    requires EmaExitsAt(entry, leverage, side, ps, i)
    ensures Pnl(entry, ps[i], leverage, side) <= EMA_LOSS_LIMIT ||
      MeanCrossExit(side, LastN(ps[..i + 1], EMA_HISTORY))
  {
    var seen := ps[..i + 1];
    TriggeredMeaning(entry, leverage, side, seen);
    assert forall j :: 0 <= j < |seen| ==> seen[j] == ps[j];
    assert !Triggered(entry, leverage, side, seen);
  }

  /** The mean-cross rule as the loop computes it, from slices of its
      history. */
  lemma MeanCrossOnHistory(side: PositionSide, h: seq<real>)
    ensures MeanCrossExit(side, h) <==>
      |h| >= EMA_LONG_LEN &&
      var m9 := Mean(h[|h| - EMA_SHORT_LEN..]);
      var m21 := Mean(h[|h| - EMA_LONG_LEN..]);
      (side == Long && m9 < m21) || (side == Short && m9 > m21)
  {
    if |h| >= EMA_LONG_LEN {
      assert LastN(h, EMA_SHORT_LEN) == h[|h| - EMA_SHORT_LEN..];
      assert LastN(h, EMA_LONG_LEN) == h[|h| - EMA_LONG_LEN..];
    }
  }

  /** One poll of `monitor_position_with_ema_exit`, in terms of the loop's
      own state after the poll. */
  lemma EmaExitsAtStep(entry: real, leverage: real, side: PositionSide, ps: seq<real>, i: nat,
                       history: seq<real>, maxPnl: real, trig: bool)
    requires entry != 0.0 && i < |ps|
    requires history == LastN(Seen([], ps, i + 1), EMA_HISTORY)
    requires maxPnl == MaxPnl(entry, leverage, side, ps[..i + 1])
    requires trig == Triggered(entry, leverage, side, ps[..i + 1])
    ensures EmaExitsAt(entry, leverage, side, ps, i) <==>
      var pnl := Pnl(entry, ps[i], leverage, side);
      pnl <= EMA_LOSS_LIMIT || (trig && HalvingFires(pnl, maxPnl)) ||
      MeanCrossExit(side, history) || pnl >= EMA_PROFIT_LIMIT
  {
    assert Seen([], ps, i + 1) == ps[..i + 1];
  }

  /** The checks one poll of `monitor_position_with_ema_exit` runs, in the
      loop's order: stop loss, latching the trigger, the halving stop once
      triggered, the mean cross on the kept history, take profit. */
  method EmaRules(side: PositionSide, pnl: real, maxPnl: real, drawDown: real, history: seq<real>, triggered: bool)
    returns (closing: bool, triggerReached: bool)
    requires drawDown == maxPnl - pnl
    ensures triggerReached == (triggered || pnl >= EMA_PROFIT_TRIGGER)
    ensures closing <==>
      pnl <= EMA_LOSS_LIMIT || (triggerReached && HalvingFires(pnl, maxPnl)) ||
      MeanCrossExit(side, history) || pnl >= EMA_PROFIT_LIMIT
  {
    triggerReached := triggered;
    closing := pnl <= EMA_LOSS_LIMIT;
    if closing {
      return;
    }
    if !triggerReached && pnl >= EMA_PROFIT_TRIGGER {
      triggerReached := true;
    }
    if triggerReached && maxPnl >= HALVING_START {
      var stop := HalvingStop(maxPnl);
      closing := drawDown >= stop;
    }
    if !closing && |history| >= EMA_LONG_LEN {
      var m9 := Mean(history[|history| - EMA_SHORT_LEN..]);
      var m21 := Mean(history[|history| - EMA_LONG_LEN..]);
      MeanCrossOnHistory(side, history);
      closing := (side == Long && m9 < m21) || (side == Short && m9 > m21);
    }
    if !closing {
      closing := pnl >= EMA_PROFIT_LIMIT;
    }
  }

  /** One iteration of the loop of `monitor_position_with_ema_exit`: the
      poll `ps[i]` updates the history, `max_pnl` and the trigger, and the
      rules decide whether to close. */
  method EmaPoll(entry: real, side: PositionSide, leverage: real, ps: seq<real>, i: nat,
                 history: seq<real>, maxPnl: real, triggered: bool)
    returns (closing: bool, history': seq<real>, maxPnl': real, triggered': bool)
    requires entry != 0.0 && i < |ps|
    requires history == LastN(Seen([], ps, i), EMA_HISTORY)
    requires maxPnl == MaxPnl(entry, leverage, side, ps[..i])
    requires triggered == Triggered(entry, leverage, side, ps[..i])
    ensures closing == EmaExitsAt(entry, leverage, side, ps, i)
    ensures history' == LastN(Seen([], ps, i + 1), EMA_HISTORY)
    ensures maxPnl' == MaxPnl(entry, leverage, side, ps[..i + 1])
    ensures triggered' == Triggered(entry, leverage, side, ps[..i + 1])
  {
    var cur := ps[i];
    PolledWindow([], ps, i, EMA_HISTORY);
    history' := PushCapped(history, cur, EMA_HISTORY);
    var pnl := Pnl(entry, cur, leverage, side);
    MaxPnlStep(entry, leverage, side, ps, i);
    TriggeredStep(entry, leverage, side, ps, i);
    maxPnl' := if maxPnl >= pnl then maxPnl else pnl;
    var drawDown := maxPnl' - pnl;
    closing, triggered' := EmaRules(side, pnl, maxPnl', drawDown, history', triggered);
    EmaExitsAtStep(entry, leverage, side, ps, i, history', maxPnl', triggered');
  }

  /** `monitor_position_with_ema_exit` over the polled prices: the first
      poll at which a rule fires, the 60-price history, `max_pnl` and
      `trigger_reached`. */
  method MonitorEma(entry: real, side: PositionSide, leverage: real, prices: seq<real>)
    returns (exitAt: Option<nat>, history: seq<real>, maxPnl: real, triggerReached: bool)
    requires entry != 0.0
    ensures exitAt.Some? ==>
      exitAt.value < |prices| && EmaExitsAt(entry, leverage, side, prices, exitAt.value)
    ensures EmaHoldsFor(entry, leverage, side, prices, if exitAt.Some? then exitAt.value else |prices|)
    ensures history == LastN(Seen([], prices, Consumed(exitAt, |prices|)), EMA_HISTORY)
    ensures maxPnl == MaxPnl(entry, leverage, side, prices[..Consumed(exitAt, |prices|)])
    ensures triggerReached == Triggered(entry, leverage, side, prices[..Consumed(exitAt, |prices|)])
  {
    history := [];
    maxPnl := 0.0;
    triggerReached := false;
    exitAt := None;
    var i := 0;
    while i < |prices|
      invariant 0 <= i <= |prices|
      invariant EmaHoldsFor(entry, leverage, side, prices, i)
      invariant history == LastN(Seen([], prices, i), EMA_HISTORY)
      invariant maxPnl == MaxPnl(entry, leverage, side, prices[..i])
      invariant triggerReached == Triggered(entry, leverage, side, prices[..i])
    {
      var closing;
      closing, history, maxPnl, triggerReached := EmaPoll(entry, side, leverage, prices, i, history, maxPnl, triggerReached);
      if closing {
        exitAt := Some(i);
        assert Consumed(exitAt, |prices|) == i + 1;
        break;
      }
      i := i + 1;
    }
  }

  // ---------------------------------------------------------------------
  // OKX trend bot: `monitor_position`

  /** `peak_price` after the polls `ps`: the highest price for a long, the
      lowest for a short, starting from the entry price. */
  function Peak(entry: real, side: PositionSide, ps: seq<real>): (r: real)
    ensures side == Long ==> r >= entry && forall i :: 0 <= i < |ps| ==> r >= ps[i]
    ensures side == Short ==> r <= entry && forall i :: 0 <= i < |ps| ==> r <= ps[i]
    ensures r == entry || exists i :: 0 <= i < |ps| && r == ps[i]
    decreases |ps|
  {
    if |ps| == 0 then entry
    else
      var prev := Peak(entry, side, ps[..|ps| - 1]);
      var cur := ps[|ps| - 1];
      assert forall i :: 0 <= i < |ps| - 1 ==> ps[..|ps| - 1][i] == ps[i];
      if side == Long then (if prev >= cur then prev else cur)
      else (if prev <= cur then prev else cur)
  }

  /** One poll more: `peak_price = max(...)` for a long, `min(...)` otherwise. */
  lemma PeakStep(entry: real, side: PositionSide, ps: seq<real>, i: nat)
    requires i < |ps|
    ensures Peak(entry, side, ps[..i + 1]) ==
      var prev := Peak(entry, side, ps[..i]);
      if side == Long then (if prev >= ps[i] then prev else ps[i])
      else (if prev <= ps[i] then prev else ps[i])
  {
    assert ps[..i + 1][..i] == ps[..i];
  }

  /** A peak taken from positive prices is positive. */
  lemma PeakPositive(entry: real, side: PositionSide, ps: seq<real>)
    requires entry > 0.0 && forall i :: 0 <= i < |ps| ==> ps[i] > 0.0
    ensures Peak(entry, side, ps) > 0.0
  {
  }

  /** The leveraged give-back from the peak. */
  function OkxDrawDown(peak: real, cur: real, leverage: real, side: PositionSide): real
    requires peak != 0.0
  {
    if side == Long then (peak - cur) / peak * leverage
    else (cur - peak) / peak * leverage
  }

  /** The give-back from the peak is never negative. */
  lemma OkxDrawDownNonNegative(entry: real, side: PositionSide, ps: seq<real>, i: nat, leverage: real)
    requires entry > 0.0 && forall j :: 0 <= j < |ps| ==> ps[j] > 0.0
    requires i < |ps| && leverage >= 0.0
    ensures OkxDrawDown(Peak(entry, side, ps[..i + 1]), ps[i], leverage, side) >= 0.0
  {
    var seen := ps[..i + 1];
    assert seen[i] == ps[i];
    PeakPositive(entry, side, seen);
    var peak := Peak(entry, side, seen);
    var d := if side == Long then peak - ps[i] else ps[i] - peak;
    assert d >= 0.0;
    assert d / peak >= 0.0;
    MulNonNegative(d / peak, leverage);
  }


  /** The rules of the OKX `monitor_position` at one poll: a loss of 20%,
      a profitable position that gave back 30% from its peak, or the slope
      of the 6 kept prices. The peak is positive for positive prices
      (PeakPositive); the guard only keeps the division defined. */
  predicate OkxExitsAt(entry: real, leverage: real, side: PositionSide, ps: seq<real>, i: nat)
    requires entry > 0.0 && i < |ps|
  {
    var peak := Peak(entry, side, ps[..i + 1]);
    var pnl := Pnl(entry, ps[i], leverage, side);
    pnl <= OKX_LOSS || (pnl > 0.0 && peak != 0.0 && OkxDrawDown(peak, ps[i], leverage, side) >= OKX_DRAWDOWN) ||
    SlopeExit(side, LastN(Seen([entry], ps, i + 1), OKX_HISTORY), OKX_HISTORY)
  }

  /** The OKX monitor stays open through the first n polls. */
  predicate OkxHoldsFor(entry: real, leverage: real, side: PositionSide, ps: seq<real>, n: nat)
    requires entry > 0.0 && n <= |ps|
    decreases n
  {
    n == 0 || (OkxHoldsFor(entry, leverage, side, ps, n - 1) && !OkxExitsAt(entry, leverage, side, ps, n - 1))
  }

  /** Holding for n polls means no rule fired at any of them. */
  lemma {:induction false} OkxHoldsForMeaning(entry: real, leverage: real, side: PositionSide, ps: seq<real>, n: nat)
    requires entry > 0.0 && n <= |ps|
    ensures OkxHoldsFor(entry, leverage, side, ps, n) <==>
      forall j :: 0 <= j < n ==> !OkxExitsAt(entry, leverage, side, ps, j)
    decreases n
  {
    if n > 0 {
      OkxHoldsForMeaning(entry, leverage, side, ps, n - 1);
    }
  }

  /** The OKX `monitor_position` over the polled prices: the first poll at
      which a kept rule fires, the 6-price history and the peak price. */
  method MonitorOkx(entry: real, side: PositionSide, leverage: real, prices: seq<real>)
    returns (exitAt: Option<nat>, history: seq<real>, peak: real)
    requires entry > 0.0 && forall j :: 0 <= j < |prices| ==> prices[j] > 0.0
    ensures exitAt.Some? ==>
      exitAt.value < |prices| && OkxExitsAt(entry, leverage, side, prices, exitAt.value)
    ensures OkxHoldsFor(entry, leverage, side, prices, if exitAt.Some? then exitAt.value else |prices|)
    ensures history == LastN(Seen([entry], prices, Consumed(exitAt, |prices|)), OKX_HISTORY)
    ensures peak == Peak(entry, side, prices[..Consumed(exitAt, |prices|)])
  {
    peak := entry;
    history := [entry];
    exitAt := None;
    var i := 0;
    while i < |prices|
      invariant 0 <= i <= |prices|
      invariant OkxHoldsFor(entry, leverage, side, prices, i)
      invariant history == LastN(Seen([entry], prices, i), OKX_HISTORY)
      invariant peak == Peak(entry, side, prices[..i])
    {
      var closing;
      closing, history, peak := OkxPoll(entry, side, leverage, prices, i, history, peak);
      if closing {
        exitAt := Some(i);
        assert Consumed(exitAt, |prices|) == i + 1;
        break;
      }
      i := i + 1;
    }
  }

  /** One iteration of the loop of the OKX `monitor_position`: the poll
      `ps[i]` updates the history and the peak, then the rules run in the
      source's order (stop loss, drawdown from the peak, slope). */
  method OkxPoll(entry: real, side: PositionSide, leverage: real, ps: seq<real>, i: nat,
                 history: seq<real>, peak: real)
    returns (closing: bool, history': seq<real>, peak': real)
    requires entry > 0.0 && forall j :: 0 <= j < |ps| ==> ps[j] > 0.0
    requires i < |ps|
    requires history == LastN(Seen([entry], ps, i), OKX_HISTORY)
    requires peak == Peak(entry, side, ps[..i])
    ensures closing == OkxExitsAt(entry, leverage, side, ps, i)
    ensures history' == LastN(Seen([entry], ps, i + 1), OKX_HISTORY)
    ensures peak' == Peak(entry, side, ps[..i + 1])
  {
    var cur := ps[i];
    PolledWindow([entry], ps, i, OKX_HISTORY);
    history' := PushCapped(history, cur, OKX_HISTORY);
    var pnl := Pnl(entry, cur, leverage, side);
    PeakStep(entry, side, ps, i);
    if side == Long {
      peak' := if peak >= cur then peak else cur;
    } else {
      peak' := if peak <= cur then peak else cur;
    }
    PeakPositive(entry, side, ps[..i + 1]);
    var drawDown := OkxDrawDown(peak', cur, leverage, side);
    closing := pnl <= OKX_LOSS || (pnl > 0.0 && drawDown >= OKX_DRAWDOWN);
    if !closing && |history'| == OKX_HISTORY {
      var k := Slope(history');
      closing := (side == Long && k < 0.0) || (side == Short && k > 0.0) || -SLOPE_FLAT < k < SLOPE_FLAT;
    }
  }
}
