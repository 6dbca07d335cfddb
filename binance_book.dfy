/** The Binance futures order-book replica (`OrderBook` in the Binance
    order-flow bot): a REST snapshot seeds both sides and the last update
    id; depth-stream deltas are applied only while their `pu` (previous
    final update id) chains onto the id the book last saw. */
module BinanceBook {
  import opened Common
  import opened BookSide

  /** The REST depth snapshot: `lastUpdateId` and the bid and ask rows. */
  datatype Snapshot = Snapshot(lastUpdateId: int, bids: seq<Level>, asks: seq<Level>)

  /** A `depthUpdate` event as the bot forwards it: `U`, `u` and `pu` may be
      missing (`payload.get`), `b` and `a` default to empty lists. */
  datatype Delta = Delta(
    firstId: Option<int>,
    finalId: Option<int>,
    prevFinalId: Option<int>,
    bids: seq<Level>,
    asks: seq<Level>)

  /** Which side `_apply_side` is handed. */
  datatype Side = BidSide | AskSide

  class OrderBook {
    var bids: map<real, real>
    var asks: map<real, real>
    var lastUpdateId: Option<int>
    var ready: bool

    /** A fresh replica: both sides empty, no update id, not ready. */
    constructor ()
      ensures bids == map[] && asks == map[]
      ensures lastUpdateId == None && !ready
    {
      bids := map[];
      asks := map[];
      lastUpdateId := None;
      ready := false;
    }

    /** `load_snapshot`: clear both sides, write every snapshot row in
        order (no size-0 test), adopt the snapshot's id and become ready. */
    method LoadSnapshot(snap: Snapshot)
      modifies this
      ensures bids == Loaded(snap.bids) && asks == Loaded(snap.asks)
      ensures lastUpdateId == Some(snap.lastUpdateId) && ready
    {
      bids := map[];
      asks := map[];
      assert snap.bids[..0] == [];
      for i := 0 to |snap.bids|
        invariant bids == Loaded(snap.bids[..i]) && asks == map[]
      {
        assert snap.bids[..i + 1][..i] == snap.bids[..i];
        bids := bids[snap.bids[i].price := snap.bids[i].size];
      }
      assert snap.bids[..|snap.bids|] == snap.bids;
      assert snap.asks[..0] == [];
      for i := 0 to |snap.asks|
        invariant asks == Loaded(snap.asks[..i])
        invariant bids == Loaded(snap.bids)
      {
        assert snap.asks[..i + 1][..i] == snap.asks[..i];
        asks := asks[snap.asks[i].price := snap.asks[i].size];
      }
      assert snap.asks[..|snap.asks|] == snap.asks;
      lastUpdateId := Some(snap.lastUpdateId);
      ready := true;
    }

    /** `_apply_side`: the update rows applied in order to the chosen side;
        the other side and the sequencing state are untouched. */
    method ApplySide(side: Side, updates: seq<Level>)
      modifies this
      ensures side == BidSide ==> bids == ApplyLevels(old(bids), updates) && asks == old(asks)
      ensures side == AskSide ==> asks == ApplyLevels(old(asks), updates) && bids == old(bids)
      ensures lastUpdateId == old(lastUpdateId) && ready == old(ready)
    {
      for i := 0 to |updates|
        invariant side == BidSide ==> bids == ApplyLevels(old(bids), updates[..i]) && asks == old(asks)
        invariant side == AskSide ==> asks == ApplyLevels(old(asks), updates[..i]) && bids == old(bids)
        invariant lastUpdateId == old(lastUpdateId) && ready == old(ready)
      {
        assert updates[..i + 1][..i] == updates[..i];
        var l := updates[i];
        match side
        case BidSide =>
          if l.size == 0.0 { bids := bids - {l.price}; } else { bids := bids[l.price := l.size]; }
        case AskSide =>
          if l.size == 0.0 { asks := asks - {l.price}; } else { asks := asks[l.price := l.size]; }
      }
      assert updates[..|updates|] == updates;
    }

    /** `apply_delta`: rejected (false, nothing changes) while the book is
        not ready, has no update id, or the delta carries a `pu` other than
        that id; otherwise bids then asks are updated, the id becomes the
        delta's `u` (possibly missing) and the result is true. */
    method ApplyDelta(d: Delta) returns (ok: bool)
      modifies this
      ensures ok <==> old(ready) && old(lastUpdateId).Some? &&
                      (d.prevFinalId.None? || d.prevFinalId == old(lastUpdateId))
      ensures !ok ==> bids == old(bids) && asks == old(asks) && lastUpdateId == old(lastUpdateId)
      ensures ok ==> bids == ApplyLevels(old(bids), d.bids) && asks == ApplyLevels(old(asks), d.asks)
                     && lastUpdateId == d.finalId
      ensures ready == old(ready)
    {
      if !ready {
        return false;
      }
      if lastUpdateId.None? {
        return false;
      }
      if d.prevFinalId.Some? && d.prevFinalId.value != lastUpdateId.value {
        return false;
      }
      ApplySide(BidSide, d.bids);
      ApplySide(AskSide, d.asks);
      lastUpdateId := d.finalId;
      return true;
    }
  }
}
