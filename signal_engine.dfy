/** `SignalEngine`: a bounded window of recent mid prices and a throttle
    timestamp, combining order-book imbalance (OBI), trade-flow imbalance
    (TFI) and the mid price's position against its short moving average
    into "long" / "short" / "no-signal". The Binance and OKX bots carry
    identical copies. */
module SignalEngine {
  import opened Common

  const MID_SMA_LEN: nat := 10
  const OBI_LONG_TH: real := 0.20
  const OBI_SHORT_TH: real := -0.20
  const TFI_LONG_TH: real := 0.60
  const TFI_SHORT_TH: real := 0.40
  const MIN_SIGNAL_INTERVAL: real := 2.0

  datatype Signal = Long | Short | NoSignal

  /** One `update_mid`: a present mid is pushed into the bounded deque, a
      missing one (an empty book side) is skipped. */
  function PushMid(window: seq<real>, mid: Option<real>): (r: seq<real>)
    ensures |window| <= MID_SMA_LEN ==> |r| <= MID_SMA_LEN
    ensures mid.Some? ==> |r| > 0 && r[|r| - 1] == mid.value
    ensures mid.None? ==> r == window
  {
    if mid.Some? then LastN(window + [mid.value], MID_SMA_LEN) else window
  }

  /** The mids that were present, in arrival order. */
  function Present(mids: seq<Option<real>>): (r: seq<real>)
    ensures |r| <= |mids|
    ensures forall x :: x in r <==> Some(x) in mids
    decreases |mids|
  {
    if |mids| == 0 then []
    else
      var init := Present(mids[..|mids| - 1]);
      if mids[|mids| - 1].Some? then init + [mids[|mids| - 1].value] else init
  }

  /** Pushing a run of mids one by one leaves exactly the last
      MID_SMA_LEN present ones. */
  function PushAll(window: seq<real>, mids: seq<Option<real>>): seq<real>
    decreases |mids|
  {
    if |mids| == 0 then window else PushMid(PushAll(window, mids[..|mids| - 1]), mids[|mids| - 1])
  }

  lemma {:induction false} PushAllKeepsRecent(mids: seq<Option<real>>)
    ensures PushAll([], mids) == LastN(Present(mids), MID_SMA_LEN)
    decreases |mids|
  {
    if |mids| > 0 {
      var init := mids[..|mids| - 1];
      var m := mids[|mids| - 1];
      PushAllKeepsRecent(init);
      if m.Some? {
        LastNAppend(Present(init), m.value, MID_SMA_LEN);
      }
    }
  }

  class SignalEngine {
    var midMa: seq<real>
    var lastSignalTs: real

    constructor ()
      ensures midMa == [] && lastSignalTs == 0.0
    {
      midMa := [];
      lastSignalTs := 0.0;
    }

    /** `update_mid`: the deque keeps the newest MID_SMA_LEN present mids. */
    method UpdateMid(mid: Option<real>)
      modifies this
      ensures midMa == PushMid(old(midMa), mid)
      ensures |old(midMa)| <= MID_SMA_LEN ==> |midMa| <= MID_SMA_LEN
      ensures lastSignalTs == old(lastSignalTs)
    {
      if mid.Some? {
        midMa := LastN(midMa + [mid.value], MID_SMA_LEN);
      }
    }

    /** `mid_above_ma`: false until the deque is full, then whether the mid
        is above the deque's mean. */
    predicate MidAboveMa(lastMid: real)
      reads this
      ensures MidAboveMa(lastMid) ==> !MidBelowMa(lastMid)
    {
      |midMa| >= MID_SMA_LEN && lastMid > Mean(midMa)
    }

    /** `mid_below_ma`: the mirror image. */
    predicate MidBelowMa(lastMid: real)
      reads this
    {
      |midMa| >= MID_SMA_LEN && lastMid < Mean(midMa)
    }

    /** `throttled`: true while less than MIN_SIGNAL_INTERVAL has passed
        since the last emitted signal; otherwise records `now` and lets the
        signal through. */
    method Throttled(now: real) returns (t: bool)
      modifies this
      ensures t <==> now - old(lastSignalTs) < MIN_SIGNAL_INTERVAL
      ensures lastSignalTs == (if t then old(lastSignalTs) else now)
      ensures midMa == old(midMa)
    {
      if now - lastSignalTs < MIN_SIGNAL_INTERVAL {
        return true;
      }
      lastSignalTs := now;
      return false;
    }

    /** `decide`: the long setup is tested first and, when it holds, the
        short setup is never looked at, even if the throttle swallows the
        long signal. */
    method Decide(obi: real, tfi: real, lastMid: Option<real>, now: real) returns (s: Signal)
      modifies this
      ensures s == Decision(obi, tfi, lastMid, old(midMa), old(lastSignalTs), now)
      ensures lastSignalTs == (if s == NoSignal then old(lastSignalTs) else now)
      ensures midMa == old(midMa)
    {
      if lastMid.None? {
        return NoSignal;
      }
      if obi > OBI_LONG_TH && tfi > TFI_LONG_TH && MidAboveMa(lastMid.value) {
        var t := Throttled(now);
        if !t {
          return Long;
        }
      } else if obi < OBI_SHORT_TH && tfi < TFI_SHORT_TH && MidBelowMa(lastMid.value) {
        var t := Throttled(now);
        if !t {
          return Short;
        }
      }
      return NoSignal;
    }
  }

  /** What `decide` answers, given the mid window and throttle timestamp it
      starts from. */
  function Decision(obi: real, tfi: real, lastMid: Option<real>, window: seq<real>, last: real, now: real): Signal {
    if lastMid.None? then NoSignal
    else if obi > OBI_LONG_TH && tfi > TFI_LONG_TH && |window| >= MID_SMA_LEN && lastMid.value > Mean(window) then
      (if now - last < MIN_SIGNAL_INTERVAL then NoSignal else Long)
    else if obi < OBI_SHORT_TH && tfi < TFI_SHORT_TH && |window| >= MID_SMA_LEN && lastMid.value < Mean(window) then
      (if now - last < MIN_SIGNAL_INTERVAL then NoSignal else Short)
    else NoSignal
  }

  /** "long" needs OBI above 0.2, TFI above 0.6, a full window with the mid
      above its mean, and the throttle open; "short" the mirror
      thresholds; a missing mid is always "no-signal". */
  lemma DecisionMeaning(obi: real, tfi: real, lastMid: Option<real>, window: seq<real>, last: real, now: real)
    ensures var s := Decision(obi, tfi, lastMid, window, last, now);
      (s == Long <==> lastMid.Some? && obi > 0.2 && tfi > 0.6 && |window| >= 10 &&
                      lastMid.value > Mean(window) && now - last >= 2.0) &&
      (s == Short <==> lastMid.Some? && obi < -0.2 && tfi < 0.4 && |window| >= 10 &&
                       lastMid.value < Mean(window) && now - last >= 2.0) &&
      (lastMid.None? ==> s == NoSignal)
  {
  }

  /** One call the bot makes on the engine: `update_mid` after a depth
      message, `decide` at a print tick. */
  datatype Event = MidUpdate(mid: Option<real>) | DecideCall(obi: real, tfi: real, lastMid: Option<real>, now: real)

  /** The engine's fields, as values. */
  datatype State = State(window: seq<real>, last: real)

  /** The times at which a run of calls emitted "long" or "short". */
  function Emitted(st: State, events: seq<Event>): seq<real>
    decreases |events|
  {
    if |events| == 0 then []
    else match events[0]
      case MidUpdate(mid) => Emitted(State(PushMid(st.window, mid), st.last), events[1..])
      case DecideCall(obi, tfi, lastMid, now) =>
        if Decision(obi, tfi, lastMid, st.window, st.last, now) == NoSignal then Emitted(st, events[1..])
        else [now] + Emitted(State(st.window, now), events[1..])
  }

  /** Signals are spaced in time: each emitted signal comes at least
      MIN_SIGNAL_INTERVAL after the previous one, the first at least that
      long after the starting throttle timestamp. */
  lemma {:induction false} EmittedSpaced(st: State, events: seq<Event>)
    ensures forall i :: 0 <= i < |Emitted(st, events)| ==> Emitted(st, events)[i] - st.last >= MIN_SIGNAL_INTERVAL
    ensures forall i :: 0 < i < |Emitted(st, events)| ==>
              Emitted(st, events)[i] - Emitted(st, events)[i - 1] >= MIN_SIGNAL_INTERVAL
    decreases |events|
  {
    if |events| > 0 {
      match events[0]
      case MidUpdate(mid) =>
        EmittedSpaced(State(PushMid(st.window, mid), st.last), events[1..]);
      case DecideCall(obi, tfi, lastMid, now) =>
        if Decision(obi, tfi, lastMid, st.window, st.last, now) == NoSignal {
          EmittedSpaced(st, events[1..]);
        } else {
          EmittedSpaced(State(st.window, now), events[1..]);
        }
    }
  }
}
