/** One side of the order-book replica (`bids` or `asks`): a map from price
    to resting size, how snapshot rows and depth-update rows change it, and
    the read-only queries both OrderBook classes share (best price, mid
    price, top-N imbalance). */
module BookSide {
  import opened Common

  /** One (price, size) row of a snapshot or a depth update, already
      parsed from its decimal strings. */
  datatype Level = Level(price: real, size: real)

  /** What the side holds at price `p`. */
  function At(m: map<real, real>, p: real): Option<real> {
    if p in m then Some(m[p]) else None
  }

  /** Two sides that hold the same thing at every price are the same map. */
  lemma SameAtEveryPrice(m1: map<real, real>, m2: map<real, real>)
    requires forall p :: At(m1, p) == At(m2, p)
    ensures m1 == m2
  {
    forall p | p in m1 ensures p in m2 && m1[p] == m2[p] {
      assert At(m1, p) == At(m2, p);
    }
    forall p | p in m2 ensures p in m1 {
      assert At(m1, p) == At(m2, p);
    }
  }

  /** Every price that occurs in a list of rows. */
  function Prices(rows: seq<Level>): set<real> {
    set i | 0 <= i < |rows| :: rows[i].price
  }

  ghost predicate NonNegative(m: map<real, real>) {
    forall p :: p in m ==> m[p] >= 0.0
  }

  // ---------------------------------------------------------------------
  // Depth updates: `_apply_side` (Binance) and the two loops of the OKX
  // `apply_delta`.
  // ---------------------------------------------------------------------

  /** One update row: size 0 pops the price (absent or not), any other size
      overwrites it; no other price is touched. */
  function ApplyLevel(m: map<real, real>, l: Level): (r: map<real, real>)
    ensures At(r, l.price) == (if l.size == 0.0 then None else Some(l.size))
    ensures forall p :: p != l.price ==> At(r, p) == At(m, p)
  {
    if l.size == 0.0 then m - {l.price} else m[l.price := l.size]
  }

  /** The rows of one update applied in order, first to last. */
  function ApplyLevels(m: map<real, real>, rows: seq<Level>): map<real, real>
    decreases |rows|
  {
    if |rows| == 0 then m
    else ApplyLevel(ApplyLevels(m, rows[..|rows| - 1]), rows[|rows| - 1])
  }

  /** One more row is one more step (the shape a loop over the rows needs). */
  lemma ApplyLevelsSnoc(m: map<real, real>, rows: seq<Level>, l: Level)
    ensures ApplyLevels(m, rows + [l]) == ApplyLevel(ApplyLevels(m, rows), l)
  {
    assert (rows + [l])[..|rows|] == rows;
  }

  /** Applying one row twice is applying it once. */
  lemma ApplyLevelIdempotent(m: map<real, real>, l: Level)
    ensures ApplyLevel(ApplyLevel(m, l), l) == ApplyLevel(m, l)
  {
    var once := ApplyLevel(m, l);
    SameAtEveryPrice(ApplyLevel(once, l), once);
  }

  /** Prices the update does not mention keep their old size. */
  lemma {:induction false} ApplyLevelsOutside(m: map<real, real>, rows: seq<Level>, p: real)
    requires p !in Prices(rows)
    ensures At(ApplyLevels(m, rows), p) == At(m, p)
    decreases |rows|
  {
    if |rows| > 0 {
      var init := rows[..|rows| - 1];
      assert Prices(init) <= Prices(rows);
      ApplyLevelsOutside(m, init, p);
    }
  }

  /** At a price the update mentions, the outcome does not depend on what
      the side held before. */
  lemma {:induction false} ApplyLevelsInside(m1: map<real, real>, m2: map<real, real>, rows: seq<Level>, p: real)
    requires p in Prices(rows)
    ensures At(ApplyLevels(m1, rows), p) == At(ApplyLevels(m2, rows), p)
    decreases |rows|
  {
    var last := rows[|rows| - 1];
    var init := rows[..|rows| - 1];
    if p != last.price {
      var i :| 0 <= i < |rows| && rows[i].price == p;
      assert i < |rows| - 1 && init[i].price == p;
      ApplyLevelsInside(m1, m2, init, p);
    }
  }

  /** "Last duplicate wins": the row that decides a price is the last row
      carrying it; size 0 there means the level is gone. */
  lemma {:induction false} ApplyLevelsLastWins(m: map<real, real>, rows: seq<Level>, j: nat)
    requires j < |rows|
    requires forall k :: j < k < |rows| ==> rows[k].price != rows[j].price
    ensures At(ApplyLevels(m, rows), rows[j].price)
         == (if rows[j].size == 0.0 then None else Some(rows[j].size))
    decreases |rows|
  {
    if j < |rows| - 1 {
      var init := rows[..|rows| - 1];
      ApplyLevelsLastWins(m, init, j);
    }
  }

  /** Applying the same update twice leaves the side as applying it once. */
  lemma ApplyLevelsIdempotent(m: map<real, real>, rows: seq<Level>)
    ensures ApplyLevels(ApplyLevels(m, rows), rows) == ApplyLevels(m, rows)
  {
    var once := ApplyLevels(m, rows);
    forall p ensures At(ApplyLevels(once, rows), p) == At(once, p) {
      if p in Prices(rows) {
        ApplyLevelsInside(once, m, rows, p);
      } else {
        ApplyLevelsOutside(once, rows, p);
      }
    }
    SameAtEveryPrice(ApplyLevels(once, rows), once);
  }

  /** Rows with non-negative sizes keep every stored size non-negative. */
  lemma {:induction false} ApplyLevelsNonNegative(m: map<real, real>, rows: seq<Level>)
    requires NonNegative(m)
    requires forall i :: 0 <= i < |rows| ==> rows[i].size >= 0.0
    ensures NonNegative(ApplyLevels(m, rows))
    decreases |rows|
  {
    if |rows| > 0 {
      ApplyLevelsNonNegative(m, rows[..|rows| - 1]);
    }
  }

  // ---------------------------------------------------------------------
  // Snapshots: `load_snapshot` clears the side and writes every row with
  // `side[p] = s`, with no test for size 0.
  // ---------------------------------------------------------------------

  /** The side a snapshot's rows build from empty. */
  function Loaded(rows: seq<Level>): map<real, real>
    decreases |rows|
  {
    if |rows| == 0 then map[]
    else Loaded(rows[..|rows| - 1])[rows[|rows| - 1].price := rows[|rows| - 1].size]
  }

  lemma LoadedSnoc(rows: seq<Level>, l: Level)
    ensures Loaded(rows + [l]) == Loaded(rows)[l.price := l.size]
  {
    assert (rows + [l])[..|rows|] == rows;
  }

  /** A loaded side holds exactly the prices of the snapshot. */
  lemma {:induction false} LoadedPrices(rows: seq<Level>)
    ensures Loaded(rows).Keys == Prices(rows)
    decreases |rows|
  {
    if |rows| > 0 {
      var init := rows[..|rows| - 1];
      LoadedPrices(init);
      assert Prices(rows) == Prices(init) + {rows[|rows| - 1].price};
    }
  }

  /** The size stored at a price is the one from its last snapshot row,
      size 0 included. */
  lemma {:induction false} LoadedLastWins(rows: seq<Level>, j: nat)
    requires j < |rows|
    requires forall k :: j < k < |rows| ==> rows[k].price != rows[j].price
    ensures rows[j].price in Loaded(rows) && Loaded(rows)[rows[j].price] == rows[j].size
    decreases |rows|
  {
    if j < |rows| - 1 {
      LoadedLastWins(rows[..|rows| - 1], j);
    }
  }

  lemma {:induction false} LoadedNonNegative(rows: seq<Level>)
    requires forall i :: 0 <= i < |rows| ==> rows[i].size >= 0.0
    ensures NonNegative(Loaded(rows))
    decreases |rows|
  {
    if |rows| > 0 {
      LoadedNonNegative(rows[..|rows| - 1]);
    }
  }

  // ---------------------------------------------------------------------
  // Queries.
  // ---------------------------------------------------------------------

  lemma {:induction false} HasGreatest(s: set<real>)
    requires s != {}
    ensures exists r :: r in s && forall q :: q in s ==> q <= r
    decreases s
  {
    NonEmptyHasMember(s);
    var x :| x in s;
    if s != {x} {
      var rest := s - {x};
      NonEmptyHasMember(rest);
      HasGreatest(rest);
      var r :| r in rest && forall q :: q in rest ==> q <= r;
      var top := if x <= r then r else x;
      forall q | q in s ensures q <= top {
        if q != x { assert q in rest; }
      }
    } else {
      forall q | q in s ensures q <= x { }
    }
  }

  lemma {:induction false} HasLeast(s: set<real>)
    requires s != {}
    ensures exists r :: r in s && forall q :: q in s ==> r <= q
    decreases s
  {
    NonEmptyHasMember(s);
    var x :| x in s;
    if s != {x} {
      var rest := s - {x};
      NonEmptyHasMember(rest);
      HasLeast(rest);
      var r :| r in rest && forall q :: q in rest ==> r <= q;
      var bottom := if r <= x then r else x;
      forall q | q in s ensures bottom <= q {
        if q != x { assert q in rest; }
      }
    } else {
      forall q | q in s ensures x <= q { }
    }
  }

  /** Python's `max(keys)`. */
  function MaxKey(s: set<real>): (r: real)
    requires s != {}
    ensures r in s && forall q :: q in s ==> q <= r
  {
    HasGreatest(s);
    var r :| r in s && forall q :: q in s ==> q <= r; r
  }

  /** Python's `min(keys)`. */
  function MinKey(s: set<real>): (r: real)
    requires s != {}
    ensures r in s && forall q :: q in s ==> r <= q
  {
    HasLeast(s);
    var r :| r in s && forall q :: q in s ==> r <= q; r
  }

  /** `best_bid`: the highest bid price, None on an empty side. */
  function BestBid(bids: map<real, real>): (r: Option<real>)
    ensures r.None? <==> bids == map[]
    ensures r.Some? ==> r.value in bids && forall p :: p in bids ==> p <= r.value
  {
    if bids == map[] then None else Some(MaxKey(bids.Keys))
  }

  /** `best_ask`: the lowest ask price, None on an empty side. */
  function BestAsk(asks: map<real, real>): (r: Option<real>)
    ensures r.None? <==> asks == map[]
    ensures r.Some? ==> r.value in asks && forall p :: p in asks ==> r.value <= p
  {
    if asks == map[] then None else Some(MinKey(asks.Keys))
  }

  /** `mid_price`: None as soon as one side is empty; otherwise the average
      of the best bid and ask, which lies between them on an uncrossed
      book. */
  function MidPrice(bids: map<real, real>, asks: map<real, real>): (r: Option<real>)
    ensures r.None? <==> bids == map[] || asks == map[]
    ensures r.Some? ==> r.value + r.value == BestBid(bids).value + BestAsk(asks).value
    ensures r.Some? && BestBid(bids).value <= BestAsk(asks).value ==>
              BestBid(bids).value <= r.value <= BestAsk(asks).value
  {
    match (BestBid(bids), BestAsk(asks))
    case (Some(bb), Some(ba)) => Some(0.5 * (bb + ba))
    case _ => None
  }

  /** Total size of the `n` best levels of one side: the `n` highest prices
      of `bids` (`highest`) or the `n` lowest of `asks`, i.e.
      `sum(s for _, s in sorted(side.items(), ...)[:n])`. */
  function TopVolume(m: map<real, real>, n: nat, highest: bool): (r: real)
    ensures NonNegative(m) ==> r >= 0.0
    ensures n == 0 || m == map[] ==> r == 0.0
    decreases m.Keys
  {
    if n == 0 || m == map[] then 0.0
    else
      var best := if highest then MaxKey(m.Keys) else MinKey(m.Keys);
      m[best] + TopVolume(m - {best}, n - 1, highest)
  }

  /** `top_n_imbalance(n)`: (bidVol - askVol) / (bidVol + askVol) over the
      n best levels of each side, and 0 when a side is empty or the total is
      not positive. */
  function TopNImbalance(bids: map<real, real>, asks: map<real, real>, n: nat): (r: real)
    ensures bids == map[] || asks == map[] ==> r == 0.0
    ensures NonNegative(bids) && NonNegative(asks) ==> -1.0 <= r <= 1.0
    ensures bids != map[] && asks != map[] && NonNegative(bids) && NonNegative(asks) ==>
              (r > 0.0 <==> TopVolume(bids, n, true) > TopVolume(asks, n, false)) &&
              (r < 0.0 <==> TopVolume(bids, n, true) < TopVolume(asks, n, false))
  {
    if bids == map[] || asks == map[] then 0.0
    else
      var bidVol := TopVolume(bids, n, true);
      var askVol := TopVolume(asks, n, false);
      var total := bidVol + askVol;
      if total <= 0.0 then 0.0
      else
        ImbalanceRatioBounds(bidVol, askVol);
        (bidVol - askVol) / total
  }

  lemma ImbalanceRatioBounds(b: real, a: real)
    requires b + a > 0.0
    ensures b >= 0.0 && a >= 0.0 ==> -1.0 <= (b - a) / (b + a) <= 1.0
    ensures (b - a) / (b + a) > 0.0 <==> b > a
    ensures (b - a) / (b + a) < 0.0 <==> b < a
  {
    var t := b + a;
    var r := (b - a) / t;
    assert r * t == b - a;
    if r > 0.0 { assert b - a > 0.0; }
    if r < 0.0 { assert b - a < 0.0; }
    if b > a { assert r * t > 0.0; }
    if b < a { assert r * t < 0.0; }
    if b >= 0.0 && a >= 0.0 {
      assert -t <= b - a <= t;
      assert -1.0 <= r by { assert (r + 1.0) * t == b - a + t; }
      assert r <= 1.0 by { assert (1.0 - r) * t == t - (b - a); }
    }
  }
}
