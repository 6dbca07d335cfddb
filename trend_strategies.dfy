/** Entry decisions of the trend bots: the two-candle direction rule
    (identical in the Backpack and OKX bots) and the two cross-based
    strategies. Indicator arrays (talib EMA and MACD outputs) and volumes
    are inputs. */
module TrendStrategies {
  import opened Common
  import Macd

  /** The side of a position. */
  datatype PositionSide = Long | Short

  /** One 15-minute candle; only its open and close are read. */
  datatype Candle = Candle(open: real, close: real)

  /** `get_open_direction_15mkline`: long when both candles closed up,
      short when both closed down, otherwise no trade (`False`). */
  function OpenDirection(k1: Candle, k2: Candle): Option<PositionSide> {
    var up := k1.close > k1.open && k2.close > k2.open;
    var down := k1.close < k1.open && k2.close < k2.open;
    if up then Some(Long) else if down then Some(Short) else None
  }

  /** Long exactly when both candles rose, short exactly when both fell. */
  lemma OpenDirectionMeaning(k1: Candle, k2: Candle)
    ensures OpenDirection(k1, k2) == Some(Long) <==> k1.close > k1.open && k2.close > k2.open
    ensures OpenDirection(k1, k2) == Some(Short) <==> k1.close < k1.open && k2.close < k2.open
    ensures OpenDirection(k1, k2) == None <==>
      !(k1.close > k1.open && k2.close > k2.open) && !(k1.close < k1.open && k2.close < k2.open)
  {
  }

  function Flip(k: Candle): Candle {
    Candle(k.close, k.open)
  }

  function Opposite(s: Option<PositionSide>): Option<PositionSide> {
    match s
    case None => None
    case Some(Long) => Some(Short)
    case Some(Short) => Some(Long)
  }

  /** Candles that moved the other way give the opposite decision. */
  lemma OpenDirectionMirror(k1: Candle, k2: Candle)
    ensures OpenDirection(Flip(k1), Flip(k2)) == Opposite(OpenDirection(k1, k2))
  {
  }

  /** `volumes[-1] > np.mean(volumes[-6:-1])`: the last volume beats the
      mean of up to five volumes before it; the mean of no volumes is NaN,
      against which the comparison is false. */
  predicate VolumeSpike(volumes: seq<real>)
    requires |volumes| >= 1
    ensures VolumeSpike(volumes) ==> |volumes| >= 2
  {
    var n := |volumes|;
    var prev := volumes[(if n >= 6 then n - 6 else 0)..n - 1];
    |prev| > 0 && volumes[n - 1] > Mean(prev)
  }

  /** `ma_volume_strategy`: an EMA(9)/EMA(26) cross on the last two
      points; the volume test picks between two identical answers. */
  function MaVolumeStrategy(ema9: seq<real>, ema26: seq<real>, volumes: seq<real>, volumeFlag: bool): Option<PositionSide>
    requires |ema9| == |ema26| >= 2 && |volumes| >= 1
  {
    var last := |ema9| - 1;
    if Macd.CrossUp(ema9, ema26, last) then
      (if volumeFlag && VolumeSpike(volumes) then Some(Long) else Some(Long))
    else if Macd.CrossDown(ema9, ema26, last) then
      (if volumeFlag && VolumeSpike(volumes) then Some(Short) else Some(Short))
    else None
  }

  /** The answer depends only on the two EMAs: neither `volume_flag` nor
      the volumes change it. */
  lemma MaVolumeIgnoresVolume(ema9: seq<real>, ema26: seq<real>, v1: seq<real>, v2: seq<real>, f1: bool, f2: bool)
    requires |ema9| == |ema26| >= 2 && |v1| >= 1 && |v2| >= 1
    ensures MaVolumeStrategy(ema9, ema26, v1, f1) == MaVolumeStrategy(ema9, ema26, v2, f2)
    ensures MaVolumeStrategy(ema9, ema26, v1, f1) == Some(Long) <==> Macd.CrossUp(ema9, ema26, |ema9| - 1)
    ensures MaVolumeStrategy(ema9, ema26, v1, f1) == Some(Short) <==> Macd.CrossDown(ema9, ema26, |ema9| - 1)
  {
  }

  /** `macd_volume_strategy`: a MACD/signal cross on the last two points,
      confirmed by a volume spike. */
  function MacdVolumeStrategy(macd: seq<real>, signal: seq<real>, volumes: seq<real>): Option<PositionSide>
    requires |macd| == |signal| >= 2 && |volumes| >= 1
  {
    var last := |macd| - 1;
    if Macd.CrossUp(macd, signal, last) && VolumeSpike(volumes) then Some(Long)
    else if Macd.CrossDown(macd, signal, last) && VolumeSpike(volumes) then Some(Short)
    else None
  }

  /** A signal needs both the cross and the volume spike. */
  lemma MacdVolumeMeaning(macd: seq<real>, signal: seq<real>, volumes: seq<real>)
    requires |macd| == |signal| >= 2 && |volumes| >= 1
    ensures MacdVolumeStrategy(macd, signal, volumes) == Some(Long) <==>
      Macd.CrossUp(macd, signal, |macd| - 1) && VolumeSpike(volumes)
    ensures MacdVolumeStrategy(macd, signal, volumes) == Some(Short) <==>
      Macd.CrossDown(macd, signal, |macd| - 1) && VolumeSpike(volumes)
  {
  }
}
