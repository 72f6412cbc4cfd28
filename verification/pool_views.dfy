/** The per-pool views the migrations define over the `pool_event` table:
    `pool_ratio`, `pool_supply`, `pool_volume`, `pool_prepare_fee_data`,
    `pool_fee` and both versions of `pool_locked`. As in `Windows`, `trunc`
    stands for `date_trunc(duration, ·)`. Amounts are the integers the
    indexer stores, and `numeric` arithmetic on them is modelled with exact
    `real` arithmetic: the rounding of `numeric` division is not modelled. */
module PoolViews {
  import opened Common
  import opened Buckets
  import PoolEvent
  import Windows

  type Event = PoolEvent.Row
  type Bucket = Windows.Bucket

  predicate IsSwap(e: Event) { e.kind == PoolEvent.Swap }
  predicate IsSync(e: Event) { e.kind == PoolEvent.Sync }
  predicate IsTransfer(e: Event) { e.kind == PoolEvent.Transfer }

  function EventTime(e: Event): int { e.timestamp }

  /** `(pool_id, date_trunc(duration, timestamp))`. */
  function EventKey(trunc: int -> int): Event -> Bucket {
    (e: Event) => Windows.Bucket(e.pool, trunc(e.timestamp))
  }

  function Swaps(events: seq<Event>): seq<Event> { Keep(events, IsSwap) }
  function Syncs(events: seq<Event>): seq<Event> { Keep(events, IsSync) }
  function Transfers(events: seq<Event>): seq<Event> { Keep(events, IsTransfer) }

  // ---------------------------------------------------------------------
  // pool_ratio
  // ---------------------------------------------------------------------

  /** The `pool` row's token decimals. */
  datatype Decimals = Decimals(decimal1: nat, decimal2: nat)

  datatype RatioRow = RatioRow(pool: string, frame: int, exactTime: int, ratio1: real, ratio2: real,
                               whichToken: int)

  lemma DivideBack(a: real, s: real)
    requires s != 0.0
    ensures (a / s) * s == a
  {
  }

  lemma ScaledPositive(raw: int, decimals: nat)
    requires raw > 0
    ensures Scaled(raw, decimals) > 0.0
  {
  }

  /** One swap's ratios: token 1 bought per token 2 sold when something of
      token 2 went in (else the sentinel -1), token 2 bought per token 1 sold
      when something of token 1 went in (else the sentinel 1), and which of
      the two applies. */
  function RatioOf(e: Event, d: Decimals, trunc: int -> int): (r: RatioRow)
    ensures r.pool == e.pool && r.frame == trunc(e.timestamp) && r.exactTime == e.timestamp
    ensures r.whichToken == 1 <==> e.amountIn2 > 0
    ensures r.whichToken == 1 || r.whichToken == 2
    ensures e.amountIn2 > 0 ==> r.ratio1 * Scaled(e.amountIn2, d.decimal2) == Scaled(e.amount1, d.decimal1)
    ensures e.amountIn2 <= 0 ==> r.ratio1 == -1.0
    ensures e.amountIn1 > 0 ==> r.ratio2 * Scaled(e.amountIn1, d.decimal1) == Scaled(e.amount2, d.decimal2)
    ensures e.amountIn1 <= 0 ==> r.ratio2 == 1.0
  {
    var ratio1 :=
      if e.amountIn2 > 0 then
        ScaledPositive(e.amountIn2, d.decimal2);
        DivideBack(Scaled(e.amount1, d.decimal1), Scaled(e.amountIn2, d.decimal2));
        Scaled(e.amount1, d.decimal1) / Scaled(e.amountIn2, d.decimal2)
      else -1.0;
    var ratio2 :=
      if e.amountIn1 > 0 then
        ScaledPositive(e.amountIn1, d.decimal1);
        DivideBack(Scaled(e.amount2, d.decimal2), Scaled(e.amountIn1, d.decimal1));
        Scaled(e.amount2, d.decimal2) / Scaled(e.amountIn1, d.decimal1)
      else 1.0;
    RatioRow(e.pool, trunc(e.timestamp), e.timestamp, ratio1, ratio2, if e.amountIn2 > 0 then 1 else 2)
  }

  /** A swap joins a `pool` row. */
  function Joined(pools: map<string, Decimals>): Event -> bool {
    (e: Event) => IsSwap(e) && e.pool in pools
  }

  function RatioWith(pools: map<string, Decimals>, trunc: int -> int): Event -> RatioRow {
    (e: Event) => RatioOf(e, if e.pool in pools then pools[e.pool] else Decimals(0, 0), trunc)
  }

  /** `pool_ratio`: one row per swap of a known pool, in event order, with
      the ratios computed from that pool's decimals. */
  function PoolRatio(events: seq<Event>, pools: map<string, Decimals>, trunc: int -> int): (r: seq<RatioRow>)
    ensures |r| == |Keep(events, Joined(pools))|
    ensures forall i :: 0 <= i < |r| ==>
      var e := Keep(events, Joined(pools))[i];
      e in events && IsSwap(e) && e.pool in pools && r[i] == RatioOf(e, pools[e.pool], trunc)
    ensures forall e :: e in events && IsSwap(e) && e.pool in pools ==> RatioOf(e, pools[e.pool], trunc) in r
  {
    var kept := Keep(events, Joined(pools));
    var r := Map(kept, RatioWith(pools, trunc));
    PoolRatioRows(events, pools, trunc, kept, r);
    PoolRatioCovers(events, pools, trunc, kept, r);
    r
  }

  /** Every `pool_ratio` row is the ratio of the kept swap at its index. */
  lemma {:induction false} PoolRatioRows(events: seq<Event>, pools: map<string, Decimals>, trunc: int -> int,
                                         kept: seq<Event>, r: seq<RatioRow>)
    requires kept == Keep(events, Joined(pools))
    requires r == Map(kept, RatioWith(pools, trunc))
    ensures forall i :: 0 <= i < |r| ==>
      var e := kept[i];
      e in events && IsSwap(e) && e.pool in pools && r[i] == RatioOf(e, pools[e.pool], trunc)
  {
    forall i | 0 <= i < |r|
      ensures var e := kept[i];
              e in events && IsSwap(e) && e.pool in pools && r[i] == RatioOf(e, pools[e.pool], trunc)
    {
      var e := kept[i];
      assert e in kept;
      assert Joined(pools)(e);
      assert r[i] == RatioWith(pools, trunc)(e);
    }
  }

  /** Every swap of a known pool has its ratio row in `pool_ratio`. */
  lemma {:induction false} PoolRatioCovers(events: seq<Event>, pools: map<string, Decimals>, trunc: int -> int,
                                           kept: seq<Event>, r: seq<RatioRow>)
    requires kept == Keep(events, Joined(pools))
    requires r == Map(kept, RatioWith(pools, trunc))
    ensures forall e :: e in events && IsSwap(e) && e.pool in pools ==> RatioOf(e, pools[e.pool], trunc) in r
  {
    forall e | e in events && IsSwap(e) && e.pool in pools
      ensures RatioOf(e, pools[e.pool], trunc) in r
    {
      assert Joined(pools)(e);
      assert e in kept;
      var i :| 0 <= i < |kept| && kept[i] == e;
      assert r[i] == RatioWith(pools, trunc)(e);
    }
  }

  /** The sentinel of `ratio1` never looks like a genuine ratio when amounts
      are non-negative: `ratio1` is -1 exactly when nothing of token 2 went
      in, and `which_token` then points at `ratio2`. */
  lemma Ratio1SentinelIsDistinct(e: Event, d: Decimals, trunc: int -> int)
    requires e.amount1 >= 0
    ensures var r := RatioOf(e, d, trunc);
            && (r.ratio1 == -1.0 <==> e.amountIn2 <= 0)
            && (r.whichToken == 1 <==> r.ratio1 >= 0.0)
  {
    var r := RatioOf(e, d, trunc);
    if e.amountIn2 > 0 {
      ScaledPositive(e.amountIn2, d.decimal2);
      var s := Scaled(e.amountIn2, d.decimal2);
      assert Scaled(e.amount1, d.decimal1) >= 0.0;
      assert r.ratio1 * s >= 0.0;
      assert r.ratio1 >= 0.0;
    }
  }

  // ---------------------------------------------------------------------
  // pool_prepare_fee_data and pool_fee
  // ---------------------------------------------------------------------

  /** The swap fee the fee views charge on an input amount. */
  const SwapFeeRate: real := 0.003

  /** One leg's fee: 0.3% of a positive input, nothing otherwise. */
  function FeeLeg(amountIn: int): (f: real)
    ensures f >= 0.0
    ensures f == 0.0 <==> amountIn <= 0
    ensures f == SwapFeeRate * (if amountIn > 0 then amountIn as real else 0.0)
  {
    if amountIn > 0 then amountIn as real * SwapFeeRate else 0.0
  }

  datatype PreparedFee = PreparedFee(pool: string, frame: int, fee1: real, fee2: real)

  function PrepareFee(trunc: int -> int): Event -> PreparedFee {
    (e: Event) => PreparedFee(e.pool, trunc(e.timestamp), FeeLeg(e.amountIn1), FeeLeg(e.amountIn2))
  }

  /** `pool_prepare_fee_data`: every swap with the fee of each leg. */
  function PoolPrepareFee(events: seq<Event>, trunc: int -> int): (p: seq<PreparedFee>)
    ensures |p| == |Swaps(events)|
    ensures forall i :: 0 <= i < |p| ==>
      var s := Swaps(events)[i];
      && s in events && IsSwap(s)
      && p[i].pool == s.pool && p[i].frame == trunc(s.timestamp)
      && p[i].fee1 == FeeLeg(s.amountIn1) && p[i].fee2 == FeeLeg(s.amountIn2)
  {
    Map(Swaps(events), PrepareFee(trunc))
  }

  function PreparedKey(p: PreparedFee): Bucket { Windows.Bucket(p.pool, p.frame) }
  function PreparedFee1(p: PreparedFee): real { p.fee1 }
  function PreparedFee2(p: PreparedFee): real { p.fee2 }

  datatype PoolFeeRow = PoolFeeRow(pool: string, frame: int, fee1: real, fee2: real)

  /** `pool_fee`: every prepared row with the fee totals of its bucket. */
  function PoolFee(events: seq<Event>, trunc: int -> int): (r: seq<PoolFeeRow>)
    ensures |r| == |Swaps(events)|
  {
    var p := PoolPrepareFee(events, trunc);
    var t1 := WindowTotals(p, PreparedKey, PreparedFee1);
    var t2 := WindowTotals(p, PreparedKey, PreparedFee2);
    seq(|p|, i requires 0 <= i < |p| => PoolFeeRow(p[i].pool, p[i].frame, t1[i], t2[i]))
  }

  function PositiveIn1(e: Event): real { if e.amountIn1 > 0 then e.amountIn1 as real else 0.0 }
  function PositiveIn2(e: Event): real { if e.amountIn2 > 0 then e.amountIn2 as real else 0.0 }
  function Fee1Of(e: Event): real { SwapFeeRate * PositiveIn1(e) }
  function Fee2Of(e: Event): real { SwapFeeRate * PositiveIn2(e) }

  /** The prepared fees of one bucket are 0.3% of the bucket's positive
      inputs. */
  lemma BucketFee(swaps: seq<Event>, trunc: int -> int, key: Bucket)
    ensures Sum(Same(Map(swaps, PrepareFee(trunc)), PreparedKey, key), PreparedFee1)
            == SwapFeeRate * Sum(Same(swaps, EventKey(trunc), key), PositiveIn1)
    ensures Sum(Same(Map(swaps, PrepareFee(trunc)), PreparedKey, key), PreparedFee2)
            == SwapFeeRate * Sum(Same(swaps, EventKey(trunc), key), PositiveIn2)
  {
    assert forall x :: PreparedKey(PrepareFee(trunc)(x)) == EventKey(trunc)(x);
    SameMap(swaps, PrepareFee(trunc), EventKey(trunc), PreparedKey, key);
    PreparedSums(Same(swaps, EventKey(trunc), key), trunc);
  }

  lemma PreparedSums(g: seq<Event>, trunc: int -> int)
    ensures Sum(Map(g, PrepareFee(trunc)), PreparedFee1) == SwapFeeRate * Sum(g, PositiveIn1)
    ensures Sum(Map(g, PrepareFee(trunc)), PreparedFee2) == SwapFeeRate * Sum(g, PositiveIn2)
  {
    PreparedSums1(g, trunc);
    PreparedSums2(g, trunc);
  }

  lemma PreparedSums1(g: seq<Event>, trunc: int -> int)
    ensures Sum(Map(g, PrepareFee(trunc)), PreparedFee1) == SwapFeeRate * Sum(g, PositiveIn1)
  {
    forall x
      ensures Fee1Of(x) == PreparedFee1(PrepareFee(trunc)(x))
    {
      assert PrepareFee(trunc)(x).fee1 == FeeLeg(x.amountIn1);
    }
    SumMap(g, PrepareFee(trunc), PreparedFee1, Fee1Of);
    SumScale(g, SwapFeeRate, PositiveIn1, Fee1Of);
  }

  lemma PreparedSums2(g: seq<Event>, trunc: int -> int)
    ensures Sum(Map(g, PrepareFee(trunc)), PreparedFee2) == SwapFeeRate * Sum(g, PositiveIn2)
  {
    forall x
      ensures Fee2Of(x) == PreparedFee2(PrepareFee(trunc)(x))
    {
      assert PrepareFee(trunc)(x).fee2 == FeeLeg(x.amountIn2);
    }
    SumMap(g, PrepareFee(trunc), PreparedFee2, Fee2Of);
    SumScale(g, SwapFeeRate, PositiveIn2, Fee2Of);
  }

  /** Each `pool_fee` row reports its swap's pool and timeframe and 0.3% of
      the positive inputs of every swap of that pool in that timeframe. */
  lemma PoolFeeTotals(events: seq<Event>, trunc: int -> int)
    ensures var r := PoolFee(events, trunc);
            forall i :: 0 <= i < |r| ==>
              var s := Swaps(events)[i];
              var g := Same(Swaps(events), EventKey(trunc), EventKey(trunc)(s));
              && r[i].pool == s.pool && r[i].frame == trunc(s.timestamp)
              && r[i].fee1 == SwapFeeRate * Sum(g, PositiveIn1)
              && r[i].fee2 == SwapFeeRate * Sum(g, PositiveIn2)
  {
    var swaps := Swaps(events);
    var p := PoolPrepareFee(events, trunc);
    assert p == Map(swaps, PrepareFee(trunc));
    var r := PoolFee(events, trunc);
    forall i | 0 <= i < |r|
      ensures var s := swaps[i];
              var g := Same(swaps, EventKey(trunc), EventKey(trunc)(s));
              && r[i].pool == s.pool && r[i].frame == trunc(s.timestamp)
              && r[i].fee1 == SwapFeeRate * Sum(g, PositiveIn1)
              && r[i].fee2 == SwapFeeRate * Sum(g, PositiveIn2)
    {
      assert PreparedKey(p[i]) == EventKey(trunc)(swaps[i]);
      BucketFee(swaps, trunc, EventKey(trunc)(swaps[i]));
    }
  }

  /** A swap's bucket total is at least the fee of the swap itself. */
  lemma PoolFeeCoversOwnFee(events: seq<Event>, trunc: int -> int, i: int)
    requires 0 <= i < |PoolFee(events, trunc)|
    ensures PoolFee(events, trunc)[i].fee1 >= FeeLeg(Swaps(events)[i].amountIn1)
    ensures PoolFee(events, trunc)[i].fee2 >= FeeLeg(Swaps(events)[i].amountIn2)
  {
    var p := PoolPrepareFee(events, trunc);
    var g := Same(p, PreparedKey, PreparedKey(p[i]));
    assert p[i] in g;
    SumAtLeastMember(g, PreparedFee1, p[i]);
    SumAtLeastMember(g, PreparedFee2, p[i]);
  }

  // ---------------------------------------------------------------------
  // pool_volume
  // ---------------------------------------------------------------------

  datatype PoolVolumeRow = PoolVolumeRow(pool: string, frame: int, amount1: real, amount2: real)

  function Amount1(e: Event): real { e.amount1 as real }
  function Amount2(e: Event): real { e.amount2 as real }

  /** `pool_volume`: every swap with the output totals of its pool and
      timeframe. */
  function PoolVolume(events: seq<Event>, trunc: int -> int): (r: seq<PoolVolumeRow>)
    ensures |r| == |Swaps(events)|
    ensures forall i :: 0 <= i < |r| ==>
      var s := Swaps(events)[i];
      var g := Same(Swaps(events), EventKey(trunc), EventKey(trunc)(s));
      && s in events && IsSwap(s) && r[i].pool == s.pool && r[i].frame == trunc(s.timestamp)
      && r[i].amount1 == Sum(g, Amount1) && r[i].amount2 == Sum(g, Amount2)
  {
    var s := Swaps(events);
    var t1 := WindowTotals(s, EventKey(trunc), Amount1);
    var t2 := WindowTotals(s, EventKey(trunc), Amount2);
    seq(|s|, i requires 0 <= i < |s| => PoolVolumeRow(s[i].pool, trunc(s[i].timestamp), t1[i], t2[i]))
  }

  /** Every `pool_volume` row agrees with a group `j` of the grouped rollup
      of the swaps: the same pool, timeframe and totals. */
  lemma PoolVolumeMatchesGroups(events: seq<Event>, trunc: int -> int, i: int) returns (j: int)
    requires 0 <= i < |PoolVolume(events, trunc)|
    ensures var gs := Groups(Swaps(events), EventKey(trunc));
            0 <= j < |gs| && gs[j] == Same(Swaps(events), EventKey(trunc), EventKey(trunc)(Swaps(events)[i]))
    ensures var r := PoolVolume(events, trunc)[i];
            var g := Groups(Swaps(events), EventKey(trunc))[j];
            && EventKey(trunc)(g[0]) == Windows.Bucket(r.pool, r.frame)
            && Sum(g, Amount1) == r.amount1 && Sum(g, Amount2) == r.amount2
  {
    var s := Swaps(events);
    var k := EventKey(trunc);
    var gs := Groups(s, k);
    assert s[i] in s;
    j :| 0 <= j < |gs| && k(gs[j][0]) == k(s[i]);
  }

  // ---------------------------------------------------------------------
  // pool_supply
  // ---------------------------------------------------------------------

  datatype SupplyRow = SupplyRow(pool: string, frame: int, supply: int, totalSupply: int)

  /** `v` is the total supply of one of the transfers of `g`. */
  ghost predicate PeerTotalSupply(g: seq<Event>, v: int) {
    exists m :: 0 <= m < |g| && g[m].totalSupply == v
  }

  /** `LAST_VALUE(total_supply)` over a partition whose `ORDER BY` names only
      the partition keys: every row is a peer of every other, so the database
      may read any of them; the model reads the last one in input order. */
  function PeerTotal(g: seq<Event>): (v: int)
    requires |g| > 0
    ensures PeerTotalSupply(g, v)
  {
    assert g[|g| - 1].totalSupply == g[|g| - 1].totalSupply;
    g[|g| - 1].totalSupply
  }

  /** `pool_supply`: every transfer with its own supply change and the total
      supply of one transfer of its pool and timeframe. */
  function PoolSupply(events: seq<Event>, trunc: int -> int): (r: seq<SupplyRow>)
    ensures |r| == |Transfers(events)|
    ensures forall i :: 0 <= i < |r| ==>
      var t := Transfers(events)[i];
      var g := Same(Transfers(events), EventKey(trunc), EventKey(trunc)(t));
      && t in events && IsTransfer(t) && r[i].pool == t.pool && r[i].frame == trunc(t.timestamp)
      && r[i].supply == t.supply && |g| > 0 && PeerTotalSupply(g, r[i].totalSupply)
  {
    var t := Transfers(events);
    seq(|t|, i requires 0 <= i < |t| =>
      assert t[i] in Same(t, EventKey(trunc), EventKey(trunc)(t[i]));
      SupplyRow(t[i].pool, trunc(t[i].timestamp), t[i].supply,
                PeerTotal(Same(t, EventKey(trunc), EventKey(trunc)(t[i])))))
  }

  /** Every transfer of one pool and timeframe reports the same total supply,
      and that total is the total of one of the bucket's transfers. */
  lemma SupplyPeersAgree(events: seq<Event>, trunc: int -> int, i: int, j: int)
    requires 0 <= i < |PoolSupply(events, trunc)| && 0 <= j < |PoolSupply(events, trunc)|
    requires EventKey(trunc)(Transfers(events)[i]) == EventKey(trunc)(Transfers(events)[j])
    ensures PoolSupply(events, trunc)[i].totalSupply == PoolSupply(events, trunc)[j].totalSupply
    ensures var g := Same(Transfers(events), EventKey(trunc), EventKey(trunc)(Transfers(events)[i]));
            exists m :: 0 <= m < |g| && g[m].totalSupply == PoolSupply(events, trunc)[i].totalSupply
  {
    PoolSupplyReadsPeer(events, trunc, i);
    PoolSupplyReadsPeer(events, trunc, j);
  }

  /** The total of row `i` is the one `LAST_VALUE` reads from its bucket. */
  lemma PoolSupplyReadsPeer(events: seq<Event>, trunc: int -> int, i: int)
    requires 0 <= i < |PoolSupply(events, trunc)|
    ensures var t := Transfers(events);
            var g := Same(t, EventKey(trunc), EventKey(trunc)(t[i]));
            |g| > 0 && PoolSupply(events, trunc)[i].totalSupply == PeerTotal(g)
  {
    var t := Transfers(events);
    assert t[i] in Same(t, EventKey(trunc), EventKey(trunc)(t[i]));
  }

  /** A bucket with a single transfer reports that transfer's own total. */
  lemma SupplyOfLoneTransfer(events: seq<Event>, trunc: int -> int, i: int)
    requires 0 <= i < |PoolSupply(events, trunc)|
    requires |Same(Transfers(events), EventKey(trunc), EventKey(trunc)(Transfers(events)[i]))| == 1
    ensures PoolSupply(events, trunc)[i].totalSupply == Transfers(events)[i].totalSupply
  {
    PoolSupplyReadsPeer(events, trunc, i);
    var t := Transfers(events);
    LoneRowIsItself(t, EventKey(trunc), i);
  }

  lemma LoneRowIsItself<T(!new), K>(rows: seq<T>, k: T -> K, i: int)
    requires 0 <= i < |rows| && |Same(rows, k, k(rows[i]))| == 1
    ensures Same(rows, k, k(rows[i]))[0] == rows[i]
  {
    var g := Same(rows, k, k(rows[i]));
    assert rows[i] in rows;
    assert rows[i] in g;
  }

  // ---------------------------------------------------------------------
  // pool_locked
  // ---------------------------------------------------------------------

  datatype LockedSum = LockedSum(pool: string, frame: int, reserved1: real, reserved2: real)
  datatype LockedRow = LockedRow(pool: string, frame: int, reserved1: int, reserved2: int)

  function Reserved1(e: Event): real { e.reserved1 as real }
  function Reserved2(e: Event): real { e.reserved2 as real }
  function LockedSumKey(o: LockedSum): Bucket { Windows.Bucket(o.pool, o.frame) }

  function LockedOfBucket(key: Bucket, g: seq<Event>): LockedSum {
    LockedSum(key.name, key.frame, Sum(g, Reserved1), Sum(g, Reserved2))
  }

  /** `pool_locked` of the first version: one row per pool and timeframe with
      the sums of the reserves of its Sync events. */
  function PoolLockedV1(events: seq<Event>, trunc: int -> int): (w: seq<LockedSum>)
    ensures forall i :: 0 <= i < |w| ==>
      var g := Same(Syncs(events), EventKey(trunc), LockedSumKey(w[i]));
      && |g| > 0 && w[i].reserved1 == Sum(g, Reserved1) && w[i].reserved2 == Sum(g, Reserved2)
    ensures forall i, j :: 0 <= i < j < |w| ==> LockedSumKey(w[i]) != LockedSumKey(w[j])
    ensures forall x :: x in Syncs(events) ==>
      exists i :: 0 <= i < |w| && LockedSumKey(w[i]) == EventKey(trunc)(x)
  {
    RollupSpec(Syncs(events), EventKey(trunc), LockedOfBucket, LockedSumKey);
    Rollup(Syncs(events), EventKey(trunc), LockedOfBucket)
  }

  function PoolOf(e: Event): string { e.pool }

  /** The latest timeframe in which `pool` has a Sync event, if any. */
  function LatestFrame(syncs: seq<Event>, pool: string, trunc: int -> int): (m: Option<int>)
    ensures m.None? <==> forall s :: s in syncs ==> s.pool != pool
    ensures m.Some? ==> exists s :: s in syncs && s.pool == pool && trunc(s.timestamp) == m.value
    ensures m.Some? ==> forall s :: s in syncs && s.pool == pool ==> trunc(s.timestamp) <= m.value
    decreases |syncs|
  {
    if |syncs| == 0 then None
    else
      var rest := LatestFrame(syncs[1..], pool, trunc);
      assert forall s :: s in syncs[1..] ==> s in syncs;
      assert forall s :: s in syncs ==> s == syncs[0] || s in syncs[1..];
      if syncs[0].pool != pool then rest
      else if rest.Some? && rest.value >= trunc(syncs[0].timestamp) then rest
      else Some(trunc(syncs[0].timestamp))
  }

  function InLatestFrame(syncs: seq<Event>, trunc: int -> int): Event -> bool {
    (e: Event) => LatestFrame(syncs, e.pool, trunc) == Some(trunc(e.timestamp))
  }

  function ToLocked(trunc: int -> int): Event -> LockedRow {
    (e: Event) => LockedRow(e.pool, trunc(e.timestamp), e.reserved1, e.reserved2)
  }

  /** `pool_locked` of the second version: the reserves of every Sync event in
      its pool's latest timeframe. */
  function PoolLockedV2(events: seq<Event>, trunc: int -> int): (r: seq<LockedRow>)
    ensures forall o :: o in r <==>
      exists s :: s in Syncs(events) && LatestFrame(Syncs(events), s.pool, trunc) == Some(trunc(s.timestamp))
                  && o == ToLocked(trunc)(s)
    ensures |r| == |Keep(Syncs(events), InLatestFrame(Syncs(events), trunc))|
    ensures forall i :: 0 <= i < |r| ==>
      var s := Keep(Syncs(events), InLatestFrame(Syncs(events), trunc))[i];
      && s in Syncs(events) && LatestFrame(Syncs(events), s.pool, trunc) == Some(trunc(s.timestamp))
      && r[i] == LockedRow(s.pool, trunc(s.timestamp), s.reserved1, s.reserved2)
  {
    var syncs := Syncs(events);
    var kept := Keep(syncs, InLatestFrame(syncs, trunc));
    var r := Map(kept, ToLocked(trunc));
    MapMembers(kept, ToLocked(trunc));
    LockedV2Rows(syncs, trunc, kept, r);
    r
  }

  /** Row `i` of the second `pool_locked` carries the reserves of the `i`-th
      Sync event of a latest timeframe. */
  lemma {:induction false} LockedV2Rows(syncs: seq<Event>, trunc: int -> int, kept: seq<Event>, r: seq<LockedRow>)
    requires kept == Keep(syncs, InLatestFrame(syncs, trunc))
    requires r == Map(kept, ToLocked(trunc))
    ensures forall i :: 0 <= i < |r| ==>
      var s := kept[i];
      && s in syncs && LatestFrame(syncs, s.pool, trunc) == Some(trunc(s.timestamp))
      && r[i] == LockedRow(s.pool, trunc(s.timestamp), s.reserved1, s.reserved2)
  {
    forall i | 0 <= i < |r|
      ensures var s := kept[i];
              && s in syncs && LatestFrame(syncs, s.pool, trunc) == Some(trunc(s.timestamp))
              && r[i] == LockedRow(s.pool, trunc(s.timestamp), s.reserved1, s.reserved2)
    {
      var s := kept[i];
      assert s in kept;
      assert InLatestFrame(syncs, trunc)(s);
      assert r[i] == ToLocked(trunc)(s);
    }
  }

  /** Every pool with a Sync event has a row in the second `pool_locked`, at
      its latest timeframe. */
  lemma LockedV2CoversPools(events: seq<Event>, trunc: int -> int, s: Event)
    requires s in Syncs(events)
    ensures exists o :: o in PoolLockedV2(events, trunc) && o.pool == s.pool
              && Some(o.frame) == LatestFrame(Syncs(events), s.pool, trunc)
  {
    var syncs := Syncs(events);
    var m := LatestFrame(syncs, s.pool, trunc);
    var w :| w in syncs && w.pool == s.pool && trunc(w.timestamp) == m.value;
    assert ToLocked(trunc)(w) in PoolLockedV2(events, trunc);
  }

  /** The second `pool_locked` reports, for each pool, rows of the bucket
      `i` the first version reports for it, and that bucket is the pool's
      latest there. */
  lemma LockedV2InLatestV1Bucket(events: seq<Event>, trunc: int -> int, o: LockedRow) returns (i: int)
    requires o in PoolLockedV2(events, trunc)
    ensures var v1 := PoolLockedV1(events, trunc);
            0 <= i < |v1| && v1[i].pool == o.pool && v1[i].frame == o.frame
    ensures var v1 := PoolLockedV1(events, trunc);
            forall j :: 0 <= j < |v1| && v1[j].pool == o.pool ==> v1[j].frame <= o.frame
  {
    var syncs := Syncs(events);
    var v1 := PoolLockedV1(events, trunc);
    var s :| s in syncs && LatestFrame(syncs, s.pool, trunc) == Some(trunc(s.timestamp)) && o == ToLocked(trunc)(s);
    i :| 0 <= i < |v1| && LockedSumKey(v1[i]) == EventKey(trunc)(s);
    forall j | 0 <= j < |v1| && v1[j].pool == o.pool
      ensures v1[j].frame <= o.frame
    {
      V1BucketNotAfterLatest(events, trunc, j, s);
    }
  }

  lemma V1BucketNotAfterLatest(events: seq<Event>, trunc: int -> int, j: int, s: Event)
    requires 0 <= j < |PoolLockedV1(events, trunc)|
    requires s in Syncs(events) && LatestFrame(Syncs(events), s.pool, trunc) == Some(trunc(s.timestamp))
    requires PoolLockedV1(events, trunc)[j].pool == s.pool
    ensures PoolLockedV1(events, trunc)[j].frame <= trunc(s.timestamp)
  {
    var syncs := Syncs(events);
    var o := PoolLockedV1(events, trunc)[j];
    var g := Same(syncs, EventKey(trunc), LockedSumKey(o));
    assert g[0] in g;
    var x := g[0];
    assert x in syncs && EventKey(trunc)(x) == LockedSumKey(o);
  }
}
