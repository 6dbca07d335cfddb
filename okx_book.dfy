/** The OKX order-book replica (`OrderBook` in the OKX order-flow bot):
    like the Binance one, but without update ids; every delta is applied,
    with no sequence or readiness test. */
module OkxBook {
  import opened BookSide

  /** One OKX book row `[price, size, ...]`: only the first two fields are
      read, the rest (liquidated orders, order count) are ignored. */
  datatype Row = Row(price: real, size: real, extra: seq<string>)

  /** A snapshot (`data[0]` of the REST reply) or a `books` push. */
  datatype Book = Book(bids: seq<Row>, asks: seq<Row>)

  /** The (price, size) part of each row, in order. */
  function Levels(rows: seq<Row>): (r: seq<Level>)
    ensures |r| == |rows|
    ensures forall i :: 0 <= i < |rows| ==> r[i] == Level(rows[i].price, rows[i].size)
  {
    seq(|rows|, i requires 0 <= i < |rows| => Level(rows[i].price, rows[i].size))
  }

  /** The extra fields of a row never influence the book. */
  lemma LevelsIgnoreExtra(rows1: seq<Row>, rows2: seq<Row>)
    requires |rows1| == |rows2|
    requires forall i :: 0 <= i < |rows1| ==>
               rows1[i].price == rows2[i].price && rows1[i].size == rows2[i].size
    ensures Levels(rows1) == Levels(rows2)
  {
  }

  lemma LevelsPrefix(rows: seq<Row>, i: nat)
    requires i < |rows|
    ensures Levels(rows[..i + 1]) == Levels(rows[..i]) + [Level(rows[i].price, rows[i].size)]
  {
  }

  class OrderBook {
    var bids: map<real, real>
    var asks: map<real, real>
    var ready: bool

    constructor ()
      ensures bids == map[] && asks == map[] && !ready
    {
      bids := map[];
      asks := map[];
      ready := false;
    }

    /** `load_snapshot`: clear both sides, write every row (no size-0
        test) and become ready. */
    method LoadSnapshot(snap: Book)
      modifies this
      ensures bids == Loaded(Levels(snap.bids)) && asks == Loaded(Levels(snap.asks))
      ensures ready
    {
      bids := map[];
      asks := map[];
      assert Levels(snap.bids[..0]) == [];
      for i := 0 to |snap.bids|
        invariant bids == Loaded(Levels(snap.bids[..i])) && asks == map[]
      {
        LevelsPrefix(snap.bids, i);
        LoadedSnoc(Levels(snap.bids[..i]), Level(snap.bids[i].price, snap.bids[i].size));
        bids := bids[snap.bids[i].price := snap.bids[i].size];
      }
      assert snap.bids[..|snap.bids|] == snap.bids;
      assert Levels(snap.asks[..0]) == [];
      for i := 0 to |snap.asks|
        invariant asks == Loaded(Levels(snap.asks[..i]))
        invariant bids == Loaded(Levels(snap.bids))
      {
        LevelsPrefix(snap.asks, i);
        LoadedSnoc(Levels(snap.asks[..i]), Level(snap.asks[i].price, snap.asks[i].size));
        asks := asks[snap.asks[i].price := snap.asks[i].size];
      }
      assert snap.asks[..|snap.asks|] == snap.asks;
      ready := true;
    }

    /** `apply_delta`: bid rows then ask rows, size 0 popping the price and
        any other size overwriting it; always accepted. */
    method ApplyDelta(d: Book) returns (ok: bool)
      modifies this
      ensures ok
      ensures bids == ApplyLevels(old(bids), Levels(d.bids))
      ensures asks == ApplyLevels(old(asks), Levels(d.asks))
      ensures ready == old(ready)
    {
      assert Levels(d.bids[..0]) == [];
      for i := 0 to |d.bids|
        invariant bids == ApplyLevels(old(bids), Levels(d.bids[..i]))
        invariant asks == old(asks) && ready == old(ready)
      {
        LevelsPrefix(d.bids, i);
        var p, s := d.bids[i].price, d.bids[i].size;
        ApplyLevelsSnoc(old(bids), Levels(d.bids[..i]), Level(p, s));
        if s == 0.0 { bids := bids - {p}; } else { bids := bids[p := s]; }
      }
      assert d.bids[..|d.bids|] == d.bids;
      assert Levels(d.asks[..0]) == [];
      for i := 0 to |d.asks|
        invariant asks == ApplyLevels(old(asks), Levels(d.asks[..i]))
        invariant bids == ApplyLevels(old(bids), Levels(d.bids)) && ready == old(ready)
      {
        LevelsPrefix(d.asks, i);
        var p, s := d.asks[i].price, d.asks[i].size;
        ApplyLevelsSnoc(old(asks), Levels(d.asks[..i]), Level(p, s));
        if s == 0.0 { asks := asks - {p}; } else { asks := asks[p := s]; }
      }
      assert d.asks[..|d.asks|] == d.asks;
      return true;
    }
  }

  /** Receiving the same push twice leaves the book as receiving it once. */
  lemma DeltaIdempotent(bids: map<real, real>, asks: map<real, real>, d: Book)
    ensures ApplyLevels(ApplyLevels(bids, Levels(d.bids)), Levels(d.bids)) == ApplyLevels(bids, Levels(d.bids))
    ensures ApplyLevels(ApplyLevels(asks, Levels(d.asks)), Levels(d.asks)) == ApplyLevels(asks, Levels(d.asks))
  {
    ApplyLevelsIdempotent(bids, Levels(d.bids));
    ApplyLevelsIdempotent(asks, Levels(d.asks));
  }
}
