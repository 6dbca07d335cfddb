/** `TradeFlow`: the trades of the last few seconds with their aggressor
    side, and the trade-flow imbalance (share of aggressive buys) over
    them. The Binance and OKX bots carry identical copies. */
module TradeFlow {

  /** One buffered trade: its time in seconds and whether the aggressor was
      the buyer (Binance: `not m`; OKX: `side == "buy"`). */
  datatype Trade = Trade(ts: real, buy: bool)

  /** Python's `ts_ms / 1000.0`. */
  function Seconds(tsMs: int): real {
    tsMs as real / 1000.0
  }

  /** What the `popleft` loop leaves: the front is dropped while it is older
      than `cutoff`; the first survivor (if any) is not older. */
  function Pruned(s: seq<Trade>, cutoff: real): (r: seq<Trade>)
    decreases |s|
  {
    if |s| == 0 || s[0].ts >= cutoff then s else Pruned(s[1..], cutoff)
  }

  /** Pruning keeps a suffix; everything it dropped was older than the
      cutoff, and the first entry it kept (if any) is not. */
  lemma {:induction false} PrunedShape(s: seq<Trade>, cutoff: real)
    ensures |Pruned(s, cutoff)| <= |s|
    ensures Pruned(s, cutoff) == s[|s| - |Pruned(s, cutoff)|..]
    ensures forall i :: 0 <= i < |s| - |Pruned(s, cutoff)| ==> s[i].ts < cutoff
    ensures |Pruned(s, cutoff)| > 0 ==> Pruned(s, cutoff)[0].ts >= cutoff
    decreases |s|
  {
    if |s| > 0 && s[0].ts < cutoff {
      PrunedShape(s[1..], cutoff);
    }
  }

  /** An entry at least as recent as the cutoff at the back of the buffer
      survives pruning, so the buffer is never left empty. */
  lemma {:induction false} PrunedKeepsLast(s: seq<Trade>, cutoff: real)
    requires |s| > 0 && s[|s| - 1].ts >= cutoff
    ensures |Pruned(s, cutoff)| > 0 && Pruned(s, cutoff)[|Pruned(s, cutoff)| - 1] == s[|s| - 1]
    decreases |s|
  {
    if s[0].ts < cutoff {
      assert |s| > 1;
      PrunedKeepsLast(s[1..], cutoff);
    }
  }

  ghost predicate InTimeOrder(s: seq<Trade>) {
    forall i, j :: 0 <= i < j < |s| ==> s[i].ts <= s[j].ts
  }

  /** When trades arrive in time order, every survivor lies inside the
      window: the buffer holds exactly the trades no older than the cutoff. */
  lemma PrunedInTimeOrder(s: seq<Trade>, cutoff: real)
    requires InTimeOrder(s)
    ensures forall i :: 0 <= i < |Pruned(s, cutoff)| ==> Pruned(s, cutoff)[i].ts >= cutoff
  {
    var r := Pruned(s, cutoff);
    PrunedShape(s, cutoff);
    forall i | 0 <= i < |r| ensures r[i].ts >= cutoff {
      assert r[i] == s[|s| - |r| + i] && r[0] == s[|s| - |r|];
    }
  }

  /** Number of aggressive buys. */
  function Buys(s: seq<Trade>): (r: nat)
    ensures r <= |s|
    ensures r == 0 <==> forall i :: 0 <= i < |s| ==> !s[i].buy
    ensures r == |s| <==> forall i :: 0 <= i < |s| ==> s[i].buy
    decreases |s|
  {
    if |s| == 0 then 0 else Buys(s[..|s| - 1]) + (if s[|s| - 1].buy then 1 else 0)
  }

  lemma ShareAgainstHalf(b: real, n: real)
    requires 0.0 <= b <= n && n > 0.0
    ensures 0.0 <= b / n <= 1.0
    ensures b / n > 0.5 <==> b + b > n
    ensures b / n < 0.5 <==> b + b < n
  {
    var r := b / n;
    assert r * n == b;
    assert (r - 0.5) * n == b - 0.5 * n;
    assert (1.0 - r) * n == n - b;
  }

  class TradeFlow {
    const windowSec: int
    var buffer: seq<Trade>

    constructor (windowSec: int)
      ensures this.windowSec == windowSec && buffer == []
    {
      this.windowSec := windowSec;
      buffer := [];
    }

    /** `add`: append the trade, then drop from the front while the oldest
        entry is older than `now - window_sec`. */
    method Add(tsMs: int, isAggressiveBuy: bool)
      modifies this
      ensures buffer == Pruned(old(buffer) + [Trade(Seconds(tsMs), isAggressiveBuy)],
                               Seconds(tsMs) - windowSec as real)
      ensures windowSec >= 0 ==> |buffer| > 0 && buffer[|buffer| - 1] == Trade(Seconds(tsMs), isAggressiveBuy)
    {
      var now := Seconds(tsMs);
      buffer := buffer + [Trade(now, isAggressiveBuy)];
      ghost var appended := buffer;
      var cutoff := now - windowSec as real;
      while |buffer| > 0 && buffer[0].ts < cutoff
        invariant Pruned(buffer, cutoff) == Pruned(appended, cutoff)
        decreases |buffer|
      {
        assert Pruned(buffer, cutoff) == Pruned(buffer[1..], cutoff);
        buffer := buffer[1..];
      }
      assert Pruned(buffer, cutoff) == buffer;
      if windowSec >= 0 {
        PrunedKeepsLast(appended, cutoff);
      }
    }

    /** `tfi`: 0.5 on an empty buffer, otherwise the share of aggressive
        buys, above one half exactly when buys outnumber sells. */
    function Tfi(): (r: real)
      reads this
      ensures 0.0 <= r <= 1.0
      ensures |buffer| == 0 ==> r == 0.5
      ensures |buffer| > 0 ==> (r > 0.5 <==> 2 * Buys(buffer) > |buffer|)
      ensures |buffer| > 0 ==> (r < 0.5 <==> 2 * Buys(buffer) < |buffer|)
    {
      if |buffer| == 0 then 0.5
      else
        var b := Buys(buffer) as real;
        var n := |buffer| as real;
        ShareAgainstHalf(b, n);
        b / n
    }
  }
}
