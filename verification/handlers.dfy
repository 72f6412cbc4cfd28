/** The pair-event handlers: `process` for Mint, Burn, Swap, Transfer and
    Sync, each followed by the shared `save` (`combine`). Decoded log
    arguments are inputs; unsigned integers are `nat`. */
module Handlers {
  import opened Common
  import opened PoolEvent
  import TokenPrices
  import Reserves
  import Candlestick
  import MarketHistory

  /** `constants.AddressZero`. */
  const AddressZero := "0x0000000000000000000000000000000000000000"

  datatype MintArgs = MintArgs(sender: string, amount0: nat, amount1: nat)
  datatype BurnArgs = BurnArgs(sender: string, amount0: nat, amount1: nat, to: string)
  datatype SwapArgs = SwapArgs(sender: string, amount0In: nat, amount1In: nat, amount0Out: nat, amount1Out: nat, to: string)
  datatype TransferArgs = TransferArgs(from: string, to: string, value: nat)
  datatype SyncArgs = SyncArgs(reserve0: nat, reserve1: nat)

  /** The registry data a Sync reads for its pool: the two token addresses and
      their decimals. */
  datatype PoolMeta = PoolMeta(token1: string, token2: string, decimal1: nat, decimal2: nat)

  /** No handler has written a field yet. */
  predicate Untouched(e: Event) {
    && e.toAddress.None? && e.senderAddress.None?
    && e.amount1.None? && e.amount2.None? && e.amountIn1.None? && e.amountIn2.None?
    && e.reserved1.None? && e.reserved2.None? && e.supply.None? && e.totalSupply.None?
  }

  /** The fields `super.process` and the constructor own are left alone. */
  predicate SameHeader(e: Event, r: Event) {
    && r.eventId == e.eventId && r.kind == e.kind && r.poolId == e.poolId && r.blockHeight == e.blockHeight
    && r.timestamp == e.timestamp && r.indexInBlock == e.indexInBlock && r.signerAddress == e.signerAddress
  }

  /** `MintEvent.process`: (sender, amount0, amount1) become the sender and the
      two amounts; the recipient is left unset. */
  function ProcessMint(e: Event, a: MintArgs): (r: Event)
    ensures SameHeader(e, r)
    ensures r.senderAddress == Some(a.sender)
    ensures Amount(r.amount1) == Some(a.amount0) && Amount(r.amount2) == Some(a.amount1)
    ensures && r.toAddress == e.toAddress && r.amountIn1 == e.amountIn1 && r.amountIn2 == e.amountIn2
            && r.reserved1 == e.reserved1 && r.reserved2 == e.reserved2
            && r.supply == e.supply && r.totalSupply == e.totalSupply
  {
    AmountOfNat(a.amount0);
    AmountOfNat(a.amount1);
    e.(senderAddress := Some(a.sender), amount1 := Some(NatToString(a.amount0)), amount2 := Some(NatToString(a.amount1)))
  }

  /** `BurnEvent.process`: (sender, amount0, amount1, to). */
  function ProcessBurn(e: Event, a: BurnArgs): (r: Event)
    ensures SameHeader(e, r)
    ensures r.senderAddress == Some(a.sender) && r.toAddress == Some(a.to)
    ensures Amount(r.amount1) == Some(a.amount0) && Amount(r.amount2) == Some(a.amount1)
    ensures && r.amountIn1 == e.amountIn1 && r.amountIn2 == e.amountIn2
            && r.reserved1 == e.reserved1 && r.reserved2 == e.reserved2
            && r.supply == e.supply && r.totalSupply == e.totalSupply
  {
    AmountOfNat(a.amount0);
    AmountOfNat(a.amount1);
    e.(senderAddress := Some(a.sender), amount1 := Some(NatToString(a.amount0)),
       amount2 := Some(NatToString(a.amount1)), toAddress := Some(a.to))
  }

  /** `SwapEvent.process`: (sender, amount0In, amount1In, amount0Out,
      amount1Out, to). No history module is touched. */
  function ProcessSwap(e: Event, a: SwapArgs): (r: Event)
    ensures SameHeader(e, r)
    ensures r.senderAddress == Some(a.sender) && r.toAddress == Some(a.to)
    ensures Amount(r.amountIn1) == Some(a.amount0In) && Amount(r.amountIn2) == Some(a.amount1In)
    ensures Amount(r.amount1) == Some(a.amount0Out) && Amount(r.amount2) == Some(a.amount1Out)
    ensures && r.reserved1 == e.reserved1 && r.reserved2 == e.reserved2
            && r.supply == e.supply && r.totalSupply == e.totalSupply
  {
    AmountOfNat(a.amount0In);
    AmountOfNat(a.amount1In);
    AmountOfNat(a.amount0Out);
    AmountOfNat(a.amount1Out);
    e.(senderAddress := Some(a.sender),
       amountIn1 := Some(NatToString(a.amount0In)), amountIn2 := Some(NatToString(a.amount1In)),
       amount1 := Some(NatToString(a.amount0Out)), amount2 := Some(NatToString(a.amount1Out)),
       toAddress := Some(a.to))
  }

  lemma AmountOfNat(n: nat)
    ensures Amount(Some(NatToString(n))) == Some(n)
  {
    ParseIntOfNatToString(n);
  }

  /** A Mint saves its sender and amounts, no recipient, and zeros elsewhere. */
  lemma MintSavesArgs(e: Event, a: MintArgs, pools: set<string>)
    requires e.kind == Mint && Untouched(e) && e.poolId in pools
    ensures var r := Save(ProcessMint(e, a), pools);
            && r.Ok? && r.value.Some?
            && r.value.value.senderAddress == Some(a.sender) && r.value.value.toAddress == None
            && r.value.value.amount1 == a.amount0 && r.value.value.amount2 == a.amount1
            && r.value.value.amountIn1 == 0 && r.value.value.amountIn2 == 0
            && r.value.value.reserved1 == 0 && r.value.value.reserved2 == 0
            && r.value.value.supply == 0 && r.value.value.totalSupply == 0
  {
    AmountOfNat(a.amount0);
    AmountOfNat(a.amount1);
  }

  /** A Burn saves its sender, amounts and recipient. */
  lemma BurnSavesArgs(e: Event, a: BurnArgs, pools: set<string>)
    requires e.kind == Burn && Untouched(e) && e.poolId in pools
    ensures var r := Save(ProcessBurn(e, a), pools);
            && r.Ok? && r.value.Some?
            && r.value.value.senderAddress == Some(a.sender) && r.value.value.toAddress == Some(a.to)
            && r.value.value.amount1 == a.amount0 && r.value.value.amount2 == a.amount1
            && r.value.value.amountIn1 == 0 && r.value.value.amountIn2 == 0
            && r.value.value.reserved1 == 0 && r.value.value.reserved2 == 0
            && r.value.value.supply == 0 && r.value.value.totalSupply == 0
  {
    AmountOfNat(a.amount0);
    AmountOfNat(a.amount1);
  }

  /** A Swap saves the inputs as amountIn, the outputs as amount, and the
      sender and recipient. */
  lemma SwapSavesArgs(e: Event, a: SwapArgs, pools: set<string>)
    requires e.kind == Swap && Untouched(e) && e.poolId in pools
    ensures var r := Save(ProcessSwap(e, a), pools);
            && r.Ok? && r.value.Some?
            && r.value.value.senderAddress == Some(a.sender) && r.value.value.toAddress == Some(a.to)
            && r.value.value.amountIn1 == a.amount0In && r.value.value.amountIn2 == a.amount1In
            && r.value.value.amount1 == a.amount0Out && r.value.value.amount2 == a.amount1Out
            && r.value.value.reserved1 == 0 && r.value.value.reserved2 == 0
            && r.value.value.supply == 0 && r.value.value.totalSupply == 0
  {
    AmountOfNat(a.amount0In);
    AmountOfNat(a.amount1In);
    AmountOfNat(a.amount0Out);
    AmountOfNat(a.amount1Out);
  }

  // ---------------------------------------------------------------------
  // Transfer
  // ---------------------------------------------------------------------

  /** An LP mint (from zero) or burn (to zero); transfers between two holders
      and zero-to-zero transfers are neither. */
  predicate IsMintOrBurn(a: TransferArgs) {
    (a.from == AddressZero) != (a.to == AddressZero)
  }

  /** The signed change in LP supply. */
  function Delta(a: TransferArgs): int {
    if a.from == AddressZero then a.value else -(a.value as int)
  }

  /** `supply`: the amount, with a minus sign for a burn. */
  function SupplyText(a: TransferArgs): (s: string)
    ensures |s| > 0 && ParseInt(s) == Some(Delta(a))
    ensures s[0] == '-' <==> a.from != AddressZero
  {
    var burning := a.from != AddressZero;
    ParseSignedText(burning, a.value);
    assert !burning ==> SignedText(burning, a.value) == NatToString(a.value) && IsDigit(NatToString(a.value)[0]);
    SignedText(burning, a.value)
  }

  /** `totalSupply`: the previous total plus a mint, or minus a burn. */
  function TotalText(prev: int, a: TransferArgs): (s: string)
    ensures ParseInt(s) == Some(prev + Delta(a))
  {
    ParseIntOfIntToString(prev + Delta(a));
    IntToString(prev + Delta(a))
  }

  /** `TransferEvent.process` with `prev` the total supply of the pool's latest
      saved Transfer (0 when there is none): a mint adds, a burn subtracts,
      and `supply` is the amount with a minus sign for a burn. */
  function ProcessTransfer(e: Event, a: TransferArgs, prev: int): (r: Event)
    ensures !IsMintOrBurn(a) ==> r == e
    ensures IsMintOrBurn(a) ==>
      && r.totalSupply.Some? && r.supply.Some? && |r.supply.value| > 0
      && ParseInt(r.totalSupply.value) == Some(prev + Delta(a))
      && ParseInt(r.supply.value) == Some(Delta(a))
      && (r.supply.value[0] == '-' <==> a.from != AddressZero)
      && r == e.(supply := r.supply, totalSupply := r.totalSupply)
  {
    if a.from != AddressZero && a.to != AddressZero then e
    else if a.from == AddressZero && a.to == AddressZero then e
    else e.(totalSupply := Some(TotalText(prev, a)), supply := Some(SupplyText(a)))
  }

  /** Replays Transfers of one pool, each reading the total supply of the
      latest saved one, and returns the last total and the saved rows. */
  function Replay(e: Event, prev: int, ts: seq<TransferArgs>, pools: set<string>): Result<(int, seq<Row>)>
    decreases |ts|
  {
    if |ts| == 0 then Ok((prev, []))
    else
      var saved :- Save(ProcessTransfer(e, ts[0], prev), pools);
      var prev' := if saved.Some? then saved.value.totalSupply else prev;
      var rest :- Replay(e, prev', ts[1..], pools);
      Ok((rest.0, (if saved.Some? then [saved.value] else []) + rest.1))
  }

  function SumSupply(rows: seq<Row>): int {
    if |rows| == 0 then 0 else rows[0].supply + SumSupply(rows[1..])
  }

  /** The number of LP mints and burns among `ts`. */
  function CountMintOrBurn(ts: seq<TransferArgs>): nat {
    if |ts| == 0 then 0 else (if IsMintOrBurn(ts[0]) then 1 else 0) + CountMintOrBurn(ts[1..])
  }

  /** Over a replayed run, one row is saved per mint or burn, and the running
      total supply is the starting one plus the signed supplies saved. */
  lemma {:induction false} TransferLedger(e: Event, prev: int, ts: seq<TransferArgs>, pools: set<string>)
    requires e.kind == Transfer && Untouched(e) && e.poolId in pools
    ensures Replay(e, prev, ts, pools).Ok?
    ensures var (total, rows) := Replay(e, prev, ts, pools).value;
            total == prev + SumSupply(rows) && |rows| == CountMintOrBurn(ts)
    decreases |ts|
  {
    if |ts| > 0 {
      var ev := ProcessTransfer(e, ts[0], prev);
      if IsMintOrBurn(ts[0]) {
        var row := Save(ev, pools).value.value;
        assert row.totalSupply == prev + Delta(ts[0]);
        assert row.supply == Delta(ts[0]);
        TransferLedger(e, row.totalSupply, ts[1..], pools);
        var rest := Replay(e, row.totalSupply, ts[1..], pools).value;
        assert ([row] + rest.1)[1..] == rest.1;
      } else {
        assert Suppressed(ev);
        TransferLedger(e, prev, ts[1..], pools);
        var rest := Replay(e, prev, ts[1..], pools).value;
        assert [] + rest.1 == rest.1;
      }
    }
  }

  // ---------------------------------------------------------------------
  // Sync
  // ---------------------------------------------------------------------

  /** The decimal-adjusted reserves and the two cross prices of a Sync. */
  datatype Prices = Prices(reserve1: real, reserve2: real, price1: real, price2: real)

  function SyncPrices(a: SyncArgs, m: PoolMeta): (p: Prices)
    requires a.reserve0 != 0 && a.reserve1 != 0
    ensures p.reserve1 == Scaled(a.reserve0, m.decimal1) && p.reserve2 == Scaled(a.reserve1, m.decimal2)
    ensures p.reserve1 != 0.0 && p.reserve2 != 0.0
    ensures p.price1 * p.reserve1 == p.reserve2 && p.price2 * p.reserve2 == p.reserve1
  {
    var r1 := Scaled(a.reserve0, m.decimal1);
    var r2 := Scaled(a.reserve1, m.decimal2);
    Prices(r1, r2, r2 / r1, r1 / r2)
  }

  /** The two cross prices are reciprocal. */
  lemma CrossPricesReciprocal(a: SyncArgs, m: PoolMeta)
    requires a.reserve0 != 0 && a.reserve1 != 0
    ensures SyncPrices(a, m).price1 * SyncPrices(a, m).price2 == 1.0
  {
    var p := SyncPrices(a, m);
    var x, c := p.price1 * p.price2, p.reserve1 * p.reserve2;
    assert c != 0.0;
    assert x * c == (p.price1 * p.reserve1) * (p.price2 * p.reserve2);
    assert (x - 1.0) * c == 0.0;
  }

  lemma ScaledExact(k: nat, d: nat)
    ensures Scaled(k * Pow10(d), d) == k as real
  {
    var p := Pow10(d) as real;
    assert p >= 1.0;
    assert (k * Pow10(d)) as real == k as real * p;
    assert k as real * p / p == k as real;
  }

  /** 1000 units of an 18-decimal token against 2000 units of a 6-decimal
      token price the first at 2 and the second at 0.5. */
  lemma SyncPriceExample(m: PoolMeta)
    requires m.decimal1 == 18 && m.decimal2 == 6
    ensures var p := SyncPrices(SyncArgs(1000 * Pow10(18), 2000 * Pow10(6)), m);
            p.reserve1 == 1000.0 && p.reserve2 == 2000.0 && p.price1 == 2.0 && p.price2 == 0.5
  {
    ScaledExact(1000, 18);
    ScaledExact(2000, 6);
  }

  /** `SyncEvent.process`: the pool must be registered; the reserves are
      recorded as text; then, in order, `TokenPrices.updateReserves` with the
      adjusted reserves, `Reserves.updateReserve` with the raw reserves and
      the event id, and the candlesticks of token1 at price1 and token2 at
      price2. A `Token not found` from the first stops the rest. */
  function ProcessSync(e: Event, a: SyncArgs, meta: Option<PoolMeta>, h: MarketHistory.State): (r: Result<(Event, MarketHistory.State)>)
    requires MarketHistory.Valid(h)
    requires a.reserve0 != 0 && a.reserve1 != 0
    ensures r.Err? <==> meta.None? || meta.value.token1 !in h.prices.tokens || meta.value.token2 !in h.prices.tokens
    ensures meta.None? ==> r == Err("Pool with id: " + e.poolId + " not found")
    ensures r.Ok? ==>
      var (e', h') := r.value;
      var m := meta.value;
      var p := SyncPrices(a, m);
      && MarketHistory.Valid(h')
      && e' == e.(reserved1 := Some(NatToString(a.reserve0)), reserved2 := Some(NatToString(a.reserve1)))
      && h'.prices == TokenPrices.UpdateReserves(h.prices, m.token1, m.token2, p.reserve1, p.reserve2).value
      && Reserves.Lookup(h'.reserves, e.poolId) == Some(Reserves.Reserve(a.reserve0, a.reserve1, e.eventId))
      && h'.candles == Candlestick.Update(Candlestick.Update(h.candles, e.poolId, m.token1, p.price1), e.poolId, m.token2, p.price2)
      && h'.volume == h.volume && h'.priceCache == h.priceCache
  {
    match meta
    case None => Err("Pool with id: " + e.poolId + " not found")
    case Some(m) =>
      var e' := e.(reserved1 := Some(NatToString(a.reserve0)), reserved2 := Some(NatToString(a.reserve1)));
      var p := SyncPrices(a, m);
      var prices :- TokenPrices.UpdateReserves(h.prices, m.token1, m.token2, p.reserve1, p.reserve2);
      var reserves := Reserves.Update(h.reserves, e.poolId, e.eventId, a.reserve0, a.reserve1);
      var candles := Candlestick.Update(Candlestick.Update(h.candles, e.poolId, m.token1, p.price1), e.poolId, m.token2, p.price2);
      Ok((e', h.(prices := prices, reserves := reserves, candles := candles)))
  }

  /** After a Sync, the pool's two candles close at the two cross prices; two
      new keys are added token1 first. */
  lemma SyncCandles(e: Event, a: SyncArgs, m: PoolMeta, h: MarketHistory.State)
    requires MarketHistory.Valid(h)
    requires a.reserve0 != 0 && a.reserve1 != 0
    requires m.token1 != m.token2 && ProcessSync(e, a, Some(m), h).Ok?
    ensures var c := ProcessSync(e, a, Some(m), h).value.1.candles;
            var k1, k2 := Candlestick.Key(e.poolId, m.token1), Candlestick.Key(e.poolId, m.token2);
            && c.candles[k1].close == SyncPrices(a, m).price1
            && c.candles[k2].close == SyncPrices(a, m).price2
            && (k1 !in h.candles.candles && k2 !in h.candles.candles ==> c.keys == h.candles.keys + [k1, k2])
  {
    Candlestick.UpdateTwo(h.candles, e.poolId, m.token1, SyncPrices(a, m).price1, m.token2, SyncPrices(a, m).price2);
  }

  /** The saved Sync row carries the raw reserves. */
  lemma SyncSavesReserves(e: Event, a: SyncArgs, m: PoolMeta, h: MarketHistory.State, pools: set<string>)
    requires MarketHistory.Valid(h)
    requires a.reserve0 != 0 && a.reserve1 != 0
    requires e.kind == Sync && Untouched(e) && e.poolId in pools && ProcessSync(e, a, Some(m), h).Ok?
    ensures var row := Save(ProcessSync(e, a, Some(m), h).value.0, pools);
            row.Ok? && row.value.Some? && row.value.value.reserved1 == a.reserve0 && row.value.value.reserved2 == a.reserve1
  {
    AmountOfNat(a.reserve0);
    AmountOfNat(a.reserve1);
  }
}
