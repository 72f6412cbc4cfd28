/** The time-bucketed rollups the `1700000000000` migration defines over the
    tables the indexer writes: `volume_window_raw`, `reserved_window_raw`,
    `token_price_window`, `candlestick_window`, `fee_raw` and
    `fee_window_raw`. `trunc` stands for `date_trunc(duration, ·)` on
    millisecond timestamps; every view is modelled for an arbitrary `trunc`,
    so one statement covers the minute, hour, day and week views. */
module Windows {
  import opened Common
  import opened Buckets
  import Volume
  import Reserves
  import TokenPrices
  import Candlestick

  /** `(pool_id, timeframe)` or `(token, timeframe)`. */
  datatype Bucket = Bucket(name: string, frame: int)

  /** `(pool_id, token, timeframe)` of the candlestick rollup. */
  datatype CandleBucket = CandleBucket(groupBy: string, token: string, frame: int)

  datatype VolumeOut = VolumeOut(pool: string, volume1: real, volume2: real, frame: int)
  datatype ReservedOut = ReservedOut(pool: string, reserved1: int, reserved2: int, frame: int)
  datatype PriceOut = PriceOut(token: string, price: real, frame: int)
  datatype CandleOut = CandleOut(pool: string, token: string, open: real, high: real, low: real, close: real,
                                 frame: int)

  /** One `fee_raw` row: a `volume_raw` row with both volumes scaled. */
  datatype FeeRawRow = FeeRawRow(pool: string, block: string, fee1: real, fee2: real, timestamp: int)
  datatype FeeOut = FeeOut(pool: string, fee1: real, fee2: real, frame: int)

  /** The fee rate `fee_raw` applies to a raw volume. */
  const FeeRawRate: real := 0.0003

  // ---------------------------------------------------------------------
  // Column accessors
  // ---------------------------------------------------------------------

  function VolumeTime(v: Volume.Row): int { v.timestamp }
  function Volume1(v: Volume.Row): real { v.volume1 as real }
  function Volume2(v: Volume.Row): real { v.volume2 as real }
  function VolumeKey(trunc: int -> int): Volume.Row -> Bucket {
    (v: Volume.Row) => Bucket(v.pool, trunc(v.timestamp))
  }

  function ReservedTime(r: Reserves.Row): int { r.timestamp }
  function ReservedKey(trunc: int -> int): Reserves.Row -> Bucket {
    (r: Reserves.Row) => Bucket(r.pool, trunc(r.timestamp))
  }

  function PriceTime(p: TokenPrices.Row): int { p.timestamp }
  function PriceKey(trunc: int -> int): TokenPrices.Row -> Bucket {
    (p: TokenPrices.Row) => Bucket(p.token, trunc(p.timestamp))
  }

  function CandleTime(c: Candlestick.Row): int { c.timestamp }
  function High(c: Candlestick.Row): real { c.high }
  function Low(c: Candlestick.Row): real { c.low }
  function CandleId(c: Candlestick.Row): string { c.id }
  function CandlePool(c: Candlestick.Row): string { c.pool }
  function CandleKey(trunc: int -> int, groupBy: Candlestick.Row -> string): Candlestick.Row -> CandleBucket {
    (c: Candlestick.Row) => CandleBucket(groupBy(c), c.token, trunc(c.timestamp))
  }

  function Fee1(f: FeeRawRow): real { f.fee1 }
  function Fee2(f: FeeRawRow): real { f.fee2 }
  function FeeKey(trunc: int -> int): FeeRawRow -> Bucket {
    (f: FeeRawRow) => Bucket(f.pool, trunc(f.timestamp))
  }

  function OutVolume1(v: VolumeOut): real { v.volume1 }
  function OutVolume2(v: VolumeOut): real { v.volume2 }

  function VolumeOutKey(o: VolumeOut): Bucket { Bucket(o.pool, o.frame) }
  function ReservedOutKey(o: ReservedOut): Bucket { Bucket(o.pool, o.frame) }
  function PriceOutKey(o: PriceOut): Bucket { Bucket(o.token, o.frame) }
  function CandleOutKey(o: CandleOut): CandleBucket { CandleBucket(o.pool, o.token, o.frame) }
  function FeeOutKey(o: FeeOut): Bucket { Bucket(o.pool, o.frame) }

  // ---------------------------------------------------------------------
  // volume_window_raw
  // ---------------------------------------------------------------------

  function VolumeOfBucket(key: Bucket, g: seq<Volume.Row>): VolumeOut {
    VolumeOut(key.name, Sum(g, Volume1), Sum(g, Volume2), key.frame)
  }

  /** One row per (pool, timeframe): the sums of both volumes over every raw
      row of that pool whose timestamp truncates to that timeframe. */
  function VolumeWindowRaw(rows: seq<Volume.Row>, trunc: int -> int): (w: seq<VolumeOut>)
    ensures forall i :: 0 <= i < |w| ==>
      var g := Same(rows, VolumeKey(trunc), VolumeOutKey(w[i]));
      && |g| > 0 && w[i].volume1 == Sum(g, Volume1) && w[i].volume2 == Sum(g, Volume2)
    ensures forall i, j :: 0 <= i < j < |w| ==> VolumeOutKey(w[i]) != VolumeOutKey(w[j])
    ensures forall x :: x in rows ==> exists i :: 0 <= i < |w| && VolumeOutKey(w[i]) == VolumeKey(trunc)(x)
  {
    RollupSpec(rows, VolumeKey(trunc), VolumeOfBucket, VolumeOutKey);
    Rollup(rows, VolumeKey(trunc), VolumeOfBucket)
  }

  /** Bucketing neither loses nor double counts volume: the buckets add up to
      the whole table. */
  lemma VolumeWindowConserves(rows: seq<Volume.Row>, trunc: int -> int)
    ensures Sum(VolumeWindowRaw(rows, trunc), OutVolume1) == Sum(rows, Volume1)
    ensures Sum(VolumeWindowRaw(rows, trunc), OutVolume2) == Sum(rows, Volume2)
  {
    var gs := Groups(rows, VolumeKey(trunc));
    var w := VolumeWindowRaw(rows, trunc);
    assert w == Rollup(rows, VolumeKey(trunc), VolumeOfBucket);
    SumPerGroup(w, gs, OutVolume1, Volume1);
    SumPerGroup(w, gs, OutVolume2, Volume2);
    GroupsConserveSum(rows, VolumeKey(trunc), Volume1);
    GroupsConserveSum(rows, VolumeKey(trunc), Volume2);
  }

  // ---------------------------------------------------------------------
  // reserved_window_raw and token_price_window
  // ---------------------------------------------------------------------

  /** `o` carries the reserves of the latest row of `g`. */
  ghost predicate LatestReserves(g: seq<Reserves.Row>, o: ReservedOut) {
    exists m :: IsLatest(g, m, ReservedTime) && g[m].reserved1 == o.reserved1 && g[m].reserved2 == o.reserved2
  }

  /** `o` carries the price of the latest row of `g`. */
  ghost predicate LatestPrice(g: seq<TokenPrices.Row>, o: PriceOut) {
    exists m :: IsLatest(g, m, PriceTime) && g[m].price == o.price
  }

  /** The reserves of a bucket's latest row. */
  function ReservedOfBucket(key: Bucket, g: seq<Reserves.Row>): (o: ReservedOut)
    requires |g| > 0
    ensures LatestReserves(g, o)
    ensures ReservedOutKey(o) == key
  {
    var m := LatestIndex(g, ReservedTime);
    assert IsLatest(g, m, ReservedTime);
    ReservedOut(key.name, g[m].reserved1, g[m].reserved2, key.frame)
  }

  /** One row per (pool, timeframe) carrying the reserves of the latest raw
      row of that bucket. */
  function ReservedWindowRaw(rows: seq<Reserves.Row>, trunc: int -> int): (w: seq<ReservedOut>)
    ensures forall i :: 0 <= i < |w| ==>
      var g := Same(rows, ReservedKey(trunc), ReservedOutKey(w[i]));
      |g| > 0 && LatestReserves(g, w[i])
    ensures forall i, j :: 0 <= i < j < |w| ==> ReservedOutKey(w[i]) != ReservedOutKey(w[j])
    ensures forall x :: x in rows ==> exists i :: 0 <= i < |w| && ReservedOutKey(w[i]) == ReservedKey(trunc)(x)
  {
    RollupSpec(rows, ReservedKey(trunc), ReservedOfBucket, ReservedOutKey);
    Rollup(rows, ReservedKey(trunc), ReservedOfBucket)
  }

  /** The price of a bucket's latest row. */
  function PriceOfBucket(key: Bucket, g: seq<TokenPrices.Row>): (o: PriceOut)
    requires |g| > 0
    ensures LatestPrice(g, o)
    ensures PriceOutKey(o) == key
  {
    var m := LatestIndex(g, PriceTime);
    assert IsLatest(g, m, PriceTime);
    PriceOut(key.name, g[m].price, key.frame)
  }

  /** One row per (token, timeframe) carrying the price of the latest price
      row of that bucket. */
  function TokenPriceWindow(rows: seq<TokenPrices.Row>, trunc: int -> int): (w: seq<PriceOut>)
    ensures forall i :: 0 <= i < |w| ==>
      var g := Same(rows, PriceKey(trunc), PriceOutKey(w[i]));
      |g| > 0 && LatestPrice(g, w[i])
    ensures forall i, j :: 0 <= i < j < |w| ==> PriceOutKey(w[i]) != PriceOutKey(w[j])
    ensures forall x :: x in rows ==> exists i :: 0 <= i < |w| && PriceOutKey(w[i]) == PriceKey(trunc)(x)
  {
    RollupSpec(rows, PriceKey(trunc), PriceOfBucket, PriceOutKey);
    Rollup(rows, PriceKey(trunc), PriceOfBucket)
  }

  /** A bucket with a single price row reports that row's price. */
  lemma SinglePriceReported(rows: seq<TokenPrices.Row>, trunc: int -> int, i: int)
    requires 0 <= i < |TokenPriceWindow(rows, trunc)|
    requires |Same(rows, PriceKey(trunc), PriceOutKey(TokenPriceWindow(rows, trunc)[i]))| == 1
    ensures var o := TokenPriceWindow(rows, trunc)[i];
            o.price == Same(rows, PriceKey(trunc), PriceOutKey(o))[0].price
  {
  }

  // ---------------------------------------------------------------------
  // candlestick_window
  // ---------------------------------------------------------------------

  /** The candle one bucket rolls up to: the open of its earliest candle,
      the highest high, the lowest low and the close of its latest candle. */
  function RollUp(key: CandleBucket, g: seq<Candlestick.Row>): (c: CandleOut)
    requires |g| > 0
    ensures exists m :: IsEarliest(g, m, CandleTime) && g[m].open == c.open
    ensures exists m :: IsLatest(g, m, CandleTime) && g[m].close == c.close
    ensures (forall x :: x in g ==> x.high <= c.high) && (exists x :: x in g && x.high == c.high)
    ensures (forall x :: x in g ==> c.low <= x.low) && (exists x :: x in g && x.low == c.low)
    ensures CandleOutKey(c) == key
  {
    var e := EarliestIndex(g, CandleTime);
    var l := LatestIndex(g, CandleTime);
    var hi := MaxOf(g, High);
    var lo := MinOf(g, Low);
    assert forall x :: x in g ==> exists j :: 0 <= j < |g| && g[j] == x;
    var hj :| 0 <= hj < |g| && High(g[hj]) == hi;
    var lj :| 0 <= lj < |g| && Low(g[lj]) == lo;
    assert g[hj] in g && g[lj] in g;
    assert IsEarliest(g, e, CandleTime) && IsLatest(g, l, CandleTime);
    CandleOut(key.groupBy, key.token, g[e].open, hi, lo, g[l].close, key.frame)
  }

  /** The candlestick rollup partitioned by `groupBy`, token and timeframe;
      each output row reports its partition's `groupBy` as `pool_id`. */
  function CandleWindowBy(rows: seq<Candlestick.Row>, trunc: int -> int, groupBy: Candlestick.Row -> string)
    : (w: seq<CandleOut>)
    ensures w == Rollup(rows, CandleKey(trunc, groupBy), RollUp)
    ensures forall i :: 0 <= i < |w| ==>
      var g := Same(rows, CandleKey(trunc, groupBy), CandleOutKey(w[i]));
      |g| > 0 && w[i] == RollUp(CandleOutKey(w[i]), g)
    ensures forall i, j :: 0 <= i < j < |w| ==> CandleOutKey(w[i]) != CandleOutKey(w[j])
    ensures forall x :: x in rows ==>
      exists i :: 0 <= i < |w| && CandleOutKey(w[i]) == CandleKey(trunc, groupBy)(x)
  {
    RollupSpec(rows, CandleKey(trunc, groupBy), RollUp, CandleOutKey);
    Rollup(rows, CandleKey(trunc, groupBy), RollUp)
  }

  /** `candlestick_window` as intended: one candle per pool, token and
      timeframe. */
  function CandlestickWindow(rows: seq<Candlestick.Row>, trunc: int -> int): (w: seq<CandleOut>)
    ensures forall i :: 0 <= i < |w| ==>
      var g := Same(rows, CandleKey(trunc, CandlePool), CandleOutKey(w[i]));
      |g| > 0 && w[i] == RollUp(CandleOutKey(w[i]), g)
    ensures forall i, j :: 0 <= i < j < |w| ==> CandleOutKey(w[i]) != CandleOutKey(w[j])
    ensures forall x :: x in rows ==>
      exists i :: 0 <= i < |w| && CandleOutKey(w[i]) == CandleBucket(x.pool, x.token, trunc(x.timestamp))
  {
    assert forall x :: CandleKey(trunc, CandlePool)(x) == CandleBucket(x.pool, x.token, trunc(x.timestamp));
    CandleWindowBy(rows, trunc, CandlePool)
  }

  /** `candlestick_window` as written: `candlestick_prepare` selects the row
      id `<height>-<pool>-<token>` into its `pool_id` column, so the window is
      partitioned by row id. */
  function CandlestickWindowAsWritten(rows: seq<Candlestick.Row>, trunc: int -> int): (w: seq<CandleOut>)
    ensures forall x :: x in rows ==>
      exists i :: 0 <= i < |w| && CandleOutKey(w[i]) == CandleBucket(x.id, x.token, trunc(x.timestamp))
  {
    assert forall x :: CandleKey(trunc, CandleId)(x) == CandleBucket(x.id, x.token, trunc(x.timestamp));
    CandleWindowBy(rows, trunc, CandleId)
  }

  /** A well-formed candle: open and close lie between low and high. */
  predicate WellFormed(open: real, high: real, low: real, close: real) {
    low <= open <= high && low <= close <= high
  }

  /** Rolling up well-formed candles yields well-formed candles. */
  lemma RollUpWellFormed(key: CandleBucket, g: seq<Candlestick.Row>)
    requires |g| > 0
    requires forall x :: x in g ==> WellFormed(x.open, x.high, x.low, x.close)
    ensures var c := RollUp(key, g); WellFormed(c.open, c.high, c.low, c.close)
  {
    var c := RollUp(key, g);
    var e :| IsEarliest(g, e, CandleTime) && g[e].open == c.open;
    var l :| IsLatest(g, l, CandleTime) && g[l].close == c.close;
    assert g[e] in g && g[l] in g;
  }

  /** Every candle of the rollup is well formed when the stored candles are. */
  lemma CandlestickWindowWellFormed(rows: seq<Candlestick.Row>, trunc: int -> int)
    requires forall x :: x in rows ==> WellFormed(x.open, x.high, x.low, x.close)
    ensures var w := CandlestickWindow(rows, trunc);
            forall i :: 0 <= i < |w| ==> WellFormed(w[i].open, w[i].high, w[i].low, w[i].close)
  {
    var w := CandlestickWindow(rows, trunc);
    forall i | 0 <= i < |w|
      ensures WellFormed(w[i].open, w[i].high, w[i].low, w[i].close)
    {
      WindowCandleWellFormed(rows, trunc, i);
    }
  }

  lemma WindowCandleWellFormed(rows: seq<Candlestick.Row>, trunc: int -> int, i: int)
    requires forall x :: x in rows ==> WellFormed(x.open, x.high, x.low, x.close)
    requires 0 <= i < |CandlestickWindow(rows, trunc)|
    ensures var c := CandlestickWindow(rows, trunc)[i]; WellFormed(c.open, c.high, c.low, c.close)
  {
    var c := CandlestickWindow(rows, trunc)[i];
    var g := Same(rows, CandleKey(trunc, CandlePool), CandleOutKey(c));
    assert c == RollUp(CandleOutKey(c), g);
    RollUpWellFormed(CandleOutKey(c), g);
  }

  /** Row ids are unique (the table's primary key), so the rollup as written
      keeps every stored candle apart: one output row per input row, carrying
      that row's own prices and its id in place of the pool. */
  lemma AsWrittenNeverAggregates(rows: seq<Candlestick.Row>, trunc: int -> int)
    requires forall i, j :: 0 <= i < j < |rows| ==> rows[i].id != rows[j].id
    ensures |CandlestickWindowAsWritten(rows, trunc)| == |rows|
    ensures forall i :: 0 <= i < |rows| ==>
      var o := CandlestickWindowAsWritten(rows, trunc)[i];
      && o.pool == rows[i].id && o.open == rows[i].open && o.high == rows[i].high
      && o.low == rows[i].low && o.close == rows[i].close
  {
    var k := CandleKey(trunc, CandleId);
    forall i, j | 0 <= i < j < |rows| ensures k(rows[i]) != k(rows[j]) {
      assert rows[i].id != rows[j].id;
    }
    DistinctKeysMakeSingletons(rows, k);
    var w := CandlestickWindowAsWritten(rows, trunc);
    assert w == Rollup(rows, k, RollUp);
    forall i | 0 <= i < |rows|
      ensures && w[i].pool == rows[i].id && w[i].open == rows[i].open && w[i].high == rows[i].high
              && w[i].low == rows[i].low && w[i].close == rows[i].close
    {
      assert Groups(rows, k)[i] == [rows[i]];
      SingleCandle(k(rows[i]), rows[i]);
    }
  }

  /** A bucket holding one candle rolls up to that candle. */
  lemma SingleCandle(key: CandleBucket, x: Candlestick.Row)
    ensures var c := RollUp(key, [x]);
            c.open == x.open && c.high == x.high && c.low == x.low && c.close == x.close && c.pool == key.groupBy
  {
    var c := RollUp(key, [x]);
    var e :| IsEarliest([x], e, CandleTime) && [x][e].open == c.open;
    var l :| IsLatest([x], l, CandleTime) && [x][l].close == c.close;
  }

  /** Two candles of one pool and token in one timeframe: the rollup as
      written reports both, each under its row id; the intended rollup merges
      them into one candle opening at the first and closing at the second. */
  lemma AsWrittenSplitsBucket(a: Candlestick.Row, b: Candlestick.Row, trunc: int -> int)
    requires a.id != b.id && a.pool == b.pool && a.token == b.token
    requires a.timestamp < b.timestamp && trunc(a.timestamp) == trunc(b.timestamp)
    ensures var w := CandlestickWindowAsWritten([a, b], trunc);
            |w| == 2 && w[0].pool == a.id && w[1].pool == b.id
    ensures var w := CandlestickWindow([a, b], trunc);
            |w| == 1 && w[0].pool == a.pool && w[0].open == a.open && w[0].close == b.close
  {
    var rows := [a, b];
    AsWrittenNeverAggregates(rows, trunc);
    var w := CandlestickWindowAsWritten(rows, trunc);
    assert w[0].pool == rows[0].id && w[1].pool == rows[1].id;
    TwoCandleWindow(a, b, trunc);
    TwoCandleRollUp(a, b, CandleBucket(a.pool, a.token, trunc(a.timestamp)));
  }

  lemma TwoCandleWindow(a: Candlestick.Row, b: Candlestick.Row, trunc: int -> int)
    requires a.pool == b.pool && a.token == b.token
    requires a.timestamp < b.timestamp && trunc(a.timestamp) == trunc(b.timestamp)
    ensures var w := CandlestickWindow([a, b], trunc);
            |w| == 1 && w[0] == RollUp(CandleBucket(a.pool, a.token, trunc(a.timestamp)), [a, b])
  {
    var k := CandleKey(trunc, CandlePool);
    TwoCandlesOneBucket(a, b, k);
    assert CandlestickWindow([a, b], trunc) == Rollup([a, b], k, RollUp);
  }

  lemma TwoCandlesOneBucket(a: Candlestick.Row, b: Candlestick.Row, k: Candlestick.Row -> CandleBucket)
    requires k(a) == k(b)
    ensures Groups([a, b], k) == [[a, b]]
  {
    SameCons(a, [b], k, k(a));
    SameCons(b, [], k, k(a));
    assert Same([a, b], k, k(a)) == [a, b];
    assert Other([a, b], k, k(a)) == [];
  }

  lemma TwoCandleRollUp(a: Candlestick.Row, b: Candlestick.Row, key: CandleBucket)
    requires a.timestamp < b.timestamp
    ensures var c := RollUp(key, [a, b]);
            && c.open == a.open && c.close == b.close
            && c.high == (if a.high < b.high then b.high else a.high)
            && c.low == (if a.low < b.low then a.low else b.low)
  {
    var g := [a, b];
    var c := RollUp(key, g);
    var e :| IsEarliest(g, e, CandleTime) && g[e].open == c.open;
    var l :| IsLatest(g, l, CandleTime) && g[l].close == c.close;
    assert CandleTime(g[0]) < CandleTime(g[1]);
    assert a in g && b in g;
  }

  // ---------------------------------------------------------------------
  // fee_raw and fee_window_raw
  // ---------------------------------------------------------------------

  function ToFee(v: Volume.Row): FeeRawRow {
    FeeRawRow(v.pool, v.blockId, v.volume1 as real * FeeRawRate, v.volume2 as real * FeeRawRate, v.timestamp)
  }

  /** `fee_raw`: every `volume_raw` row with both volumes times 0.0003. */
  function FeeRaw(rows: seq<Volume.Row>): (f: seq<FeeRawRow>)
    ensures |f| == |rows|
    ensures forall i :: 0 <= i < |rows| ==>
      && f[i].pool == rows[i].pool && f[i].timestamp == rows[i].timestamp
      && f[i].fee1 == FeeRawRate * rows[i].volume1 as real && f[i].fee2 == FeeRawRate * rows[i].volume2 as real
  {
    Map(rows, ToFee)
  }

  function FeeOfBucket(key: Bucket, g: seq<FeeRawRow>): FeeOut {
    FeeOut(key.name, Sum(g, Fee1), Sum(g, Fee2), key.frame)
  }

  /** One row per (pool, timeframe): the sums of both fees over the bucket. */
  function FeeWindowRaw(rows: seq<FeeRawRow>, trunc: int -> int): (w: seq<FeeOut>)
    ensures forall i :: 0 <= i < |w| ==>
      var g := Same(rows, FeeKey(trunc), FeeOutKey(w[i]));
      && |g| > 0 && w[i].fee1 == Sum(g, Fee1) && w[i].fee2 == Sum(g, Fee2)
    ensures forall i, j :: 0 <= i < j < |w| ==> FeeOutKey(w[i]) != FeeOutKey(w[j])
    ensures forall x :: x in rows ==> exists i :: 0 <= i < |w| && FeeOutKey(w[i]) == FeeKey(trunc)(x)
  {
    RollupSpec(rows, FeeKey(trunc), FeeOfBucket, FeeOutKey);
    Rollup(rows, FeeKey(trunc), FeeOfBucket)
  }

  function ScaledVolume1(v: Volume.Row): real { FeeRawRate * Volume1(v) }
  function ScaledVolume2(v: Volume.Row): real { FeeRawRate * Volume2(v) }

  /** The fees of one bucket are its volumes times the fee rate. */
  lemma BucketFees(g: seq<Volume.Row>)
    ensures Sum(Map(g, ToFee), Fee1) == FeeRawRate * Sum(g, Volume1)
    ensures Sum(Map(g, ToFee), Fee2) == FeeRawRate * Sum(g, Volume2)
  {
    SumMap(g, ToFee, Fee1, ScaledVolume1);
    SumMap(g, ToFee, Fee2, ScaledVolume2);
    SumScale(g, FeeRawRate, Volume1, ScaledVolume1);
    SumScale(g, FeeRawRate, Volume2, ScaledVolume2);
  }

  /** The fee rollup is the volume rollup scaled by the fee rate, bucket by
      bucket, in the same order. */
  lemma FeeWindowIsScaledVolume(rows: seq<Volume.Row>, trunc: int -> int)
    ensures var f := FeeWindowRaw(FeeRaw(rows), trunc);
            var v := VolumeWindowRaw(rows, trunc);
            && |f| == |v|
            && forall i :: 0 <= i < |f| ==>
                 && f[i].pool == v[i].pool && f[i].frame == v[i].frame
                 && f[i].fee1 == FeeRawRate * v[i].volume1 && f[i].fee2 == FeeRawRate * v[i].volume2
  {
    var vk, fk := VolumeKey(trunc), FeeKey(trunc);
    assert FeeRaw(rows) == Map(rows, ToFee);
    GroupsMap(rows, ToFee, vk, fk);
    var vg := Groups(rows, vk);
    var fg := Groups(Map(rows, ToFee), fk);
    var f := FeeWindowRaw(FeeRaw(rows), trunc);
    var v := VolumeWindowRaw(rows, trunc);
    assert f == Rollup(Map(rows, ToFee), fk, FeeOfBucket);
    assert v == Rollup(rows, vk, VolumeOfBucket);
    forall i | 0 <= i < |f|
      ensures && f[i].pool == v[i].pool && f[i].frame == v[i].frame
              && f[i].fee1 == FeeRawRate * v[i].volume1 && f[i].fee2 == FeeRawRate * v[i].volume2
    {
      assert fg[i] == Map(vg[i], ToFee);
      assert fk(fg[i][0]) == vk(vg[i][0]);
      BucketFees(vg[i]);
    }
  }

  // ---------------------------------------------------------------------
  // Percentage change between consecutive timeframes
  // ---------------------------------------------------------------------

  /** The `*_change` columns: `(current - previous) / previous * 100`, where a
      missing or zero previous value gives 100 unless the current value is 0,
      and a missing current value over a non-zero previous one gives no value
      (`NULL`). */
  function Change(current: Option<real>, previous: Option<real>): (r: Option<real>)
    ensures (previous.None? || previous == Some(0.0)) ==>
      r == Some(if current == Some(0.0) then 0.0 else 100.0)
    ensures previous.Some? && previous.value != 0.0 ==> (r.Some? <==> current.Some?)
    ensures previous.Some? && previous.value != 0.0 && r.Some? ==>
      current.value == previous.value + previous.value * r.value / 100.0
  {
    match previous
    case None => Some(if current == Some(0.0) then 0.0 else 100.0)
    case Some(p) =>
      if p == 0.0 then Some(if current == Some(0.0) then 0.0 else 100.0)
      else if current.None? then None
      else Some((current.value - p) / p * 100.0)
  }

  /** Applying a percentage change to a non-zero previous value and measuring
      it again gives the percentage back. */
  lemma ChangeRoundTrip(previous: real, percent: real)
    requires previous != 0.0
    ensures Change(Some(previous + previous * percent / 100.0), Some(previous)) == Some(percent)
  {
    var cur := previous + previous * percent / 100.0;
    assert cur - previous == previous * (percent / 100.0);
    assert (cur - previous) / previous == percent / 100.0;
  }
}
