/** The batch processor: the first batch initialises the history modules from
    the block before it; then, block by block, every `EVM.Log` item is routed
    to the factory or to the handler its topic selects, and after each block's
    items the history modules are flushed. */
module Processor {
  import opened Common
  import PoolEvent
  import Handlers
  import Factory
  import MarketHistory
  import ReefPrice

  const PairCreatedTopic := "0x0d3648bd0f6ba80134a33ba9275ac585d9d315f0ad8355cddefde31afa28d0e9"
  const MintTopic := "0x4c209b5fc8ad50758f13e2e1088ba56a560dff690a1c6fef26394f4c03821c4f"
  const BurnTopic := "0xdccd412f0b1252819cb1fd330b93224ca42612892bb3f4f789976e6d81936496"
  const SwapTopic := "0xd78ad95fa46c994b6551d0da85fc275fe613ce37657fb8d5e3d130840159d822"
  const SyncTopic := "0x1c411e9a96e071241c2f21f7726b17ae89e3cab4c78be50e062b03a9fffbbad1"
  const TransferTopic := "0xddf252ad1be2c89b69c2b068fc378daa952ba7f163c4a11628f55a4df523b3ef"

  /** What decoding a log against the pair or factory ABI gives. */
  datatype Decoded =
    | MintLog(mint: Handlers.MintArgs)
    | BurnLog(burn: Handlers.BurnArgs)
    | SwapLog(swap: Handlers.SwapArgs)
    | SyncLog(sync: Handlers.SyncArgs)
    | TransferLog(transfer: Handlers.TransferArgs)
    | PairCreatedLog(created: Factory.PairCreatedArgs)
    | OtherLog(name: string)
    | Undecodable

  /** An EVM log: its event id, emitting address (already checksummed), topics,
      decoded arguments and extrinsic. */
  datatype Log = Log(id: string, address: string, topics: seq<string>, decoded: Decoded,
                     extrinsic: Option<PoolEvent.Extrinsic>)

  datatype Item = Item(name: string, log: Log)

  /** A block with its items, the clock reading and the price oracle seen
      while it is flushed. */
  datatype Block = Block(header: Header, items: seq<Item>, now: int, oracle: ReefPrice.Oracle)

  /** What the processor reads from outside: the history snapshot for a
      height, the token metadata lookups, and the verification switch. */
  datatype Env = Env(snapshotAt: int -> MarketHistory.Snapshot, tokens: Factory.TokenOracle, verify: bool)

  /** The store: the registry, the saved pool events, and one history flush
      per processed block. */
  datatype Store = Store(registry: Factory.Registry, events: seq<PoolEvent.Row>, flushes: seq<MarketHistory.Output>)

  datatype State = State(firstBatch: bool, store: Store, history: MarketHistory.State, verifyRequests: seq<string>)

  const Start := State(true, Store(Factory.Registry(map[], map[]), [], []), MarketHistory.Initial, [])

  /** Until the first batch has run, the history modules have not been
      initialised; afterwards they are valid. */
  ghost predicate Valid(st: State) {
    !st.firstBatch ==> MarketHistory.Valid(st.history)
  }

  ghost predicate GoodEnv(env: Env) {
    forall h :: MarketHistory.GoodSnapshot(env.snapshotAt(h))
  }

  // ---------------------------------------------------------------------
  // Dispatch
  // ---------------------------------------------------------------------

  datatype Handler = MintHandler | BurnHandler | SwapHandler | SyncHandler | TransferHandler | EmptyHandler

  /** `topics[0] || ""`. */
  function Topic0(topics: seq<string>): string {
    if |topics| == 0 then "" else topics[0]
  }

  /** `selectPoolEvent`: each of the five pair topics has its own handler;
      anything else gets the no-op `EmptyEvent`. */
  function SelectPoolEvent(topic0: string): (h: Handler)
    ensures h == EmptyHandler <==> topic0 !in {MintTopic, BurnTopic, SwapTopic, SyncTopic, TransferTopic}
    ensures h == MintHandler <==> topic0 == MintTopic
    ensures h == BurnHandler <==> topic0 == BurnTopic
    ensures h == SwapHandler <==> topic0 == SwapTopic
    ensures h == SyncHandler <==> topic0 == SyncTopic
    ensures h == TransferHandler <==> topic0 == TransferTopic
  {
    if topic0 == MintTopic then MintHandler
    else if topic0 == BurnTopic then BurnHandler
    else if topic0 == SwapTopic then SwapHandler
    else if topic0 == SyncTopic then SyncHandler
    else if topic0 == TransferTopic then TransferHandler
    else EmptyHandler
  }

  /** The start of the UTC day of a time, as `toDateString` keeps it. */
  function DayStart(t: int): (d: int)
    ensures d <= t < d + ReefPrice.MsPerDay
    ensures d % ReefPrice.MsPerDay == 0
  {
    (t / ReefPrice.MsPerDay) * ReefPrice.MsPerDay
  }

  /** A saved Transfer row of `pool`. */
  predicate IsTransferOf(row: PoolEvent.Row, pool: string) {
    row.pool == pool && row.kind == PoolEvent.Transfer
  }

  /** The total supply of the pool's latest saved Transfer row, or 0. */
  function LatestTotalSupply(events: seq<PoolEvent.Row>, pool: string): int {
    if |events| == 0 then 0
    else
      var last := events[|events| - 1];
      if IsTransferOf(last, pool) then last.totalSupply
      else LatestTotalSupply(events[..|events| - 1], pool)
  }

  /** The previous total read by the Transfer handler is the total of the
      pool's last saved Transfer row `k`, or 0 when there is none (`k = -1`). */
  lemma {:induction false} LatestTotalSupplyIsLastTransfer(events: seq<PoolEvent.Row>, pool: string)
    returns (k: int)
    ensures -1 <= k < |events|
    ensures forall j :: k < j < |events| ==> !IsTransferOf(events[j], pool)
    ensures k == -1 ==> LatestTotalSupply(events, pool) == 0
    ensures k >= 0 ==> IsTransferOf(events[k], pool) && LatestTotalSupply(events, pool) == events[k].totalSupply
    decreases |events|
  {
    if |events| == 0 {
      k := -1;
    } else if IsTransferOf(events[|events| - 1], pool) {
      k := |events| - 1;
    } else {
      var init := events[..|events| - 1];
      k := LatestTotalSupplyIsLastTransfer(init, pool);
      assert forall j :: 0 <= j < |init| ==> init[j] == events[j];
    }
  }

  /** Appending a Transfer row of the pool makes its total the latest one. */
  lemma LatestOfAppended(events: seq<PoolEvent.Row>, row: PoolEvent.Row, pool: string)
    requires IsTransferOf(row, pool)
    ensures LatestTotalSupply(events + [row], pool) == row.totalSupply
  {
  }

  /** The tokens and decimals of a registered pool, as the Sync handler reads
      them; decimals of a token missing from the registry read as 0. */
  function PoolMetaOf(reg: Factory.Registry, pool: string): (r: Option<Handlers.PoolMeta>)
    ensures r.None? <==> pool !in reg.pools
    ensures r.Some? ==>
      var p := reg.pools[pool];
      && r.value.token1 == p.token1 && r.value.token2 == p.token2
      && (p.token1 in reg.tokens ==> r.value.decimal1 == reg.tokens[p.token1].decimals)
      && (p.token2 in reg.tokens ==> r.value.decimal2 == reg.tokens[p.token2].decimals)
      && (p.token1 !in reg.tokens ==> r.value.decimal1 == 0)
      && (p.token2 !in reg.tokens ==> r.value.decimal2 == 0)
  {
    if pool !in reg.pools then None
    else
      var p := reg.pools[pool];
      var d1 := if p.token1 in reg.tokens then reg.tokens[p.token1].decimals else 0;
      var d2 := if p.token2 in reg.tokens then reg.tokens[p.token2].decimals else 0;
      Some(Handlers.PoolMeta(p.token1, p.token2, d1, d2))
  }

  /** Every Sync log carries non-zero reserves. */
  predicate NonZeroSync(d: Decoded) {
    d.SyncLog? ==> d.sync.reserve0 != 0 && d.sync.reserve1 != 0
  }

  /** Saves a processed event (the second half of `combine`). */
  function SaveEvent(st: State, e: PoolEvent.Event): (r: Result<State>)
    ensures r.Ok? ==> r.value == st.(store := r.value.store) && r.value.store.flushes == st.store.flushes
  {
    var row :- PoolEvent.Save(e, st.store.registry.pools.Keys);
    Ok(if row.Some? then st.(store := st.store.(events := PoolEvent.Upsert(st.store.events, row.value))) else st)
  }

  /** The pool type a handler's constructor stamps on its event. */
  function KindOf(handler: Handler): PoolEvent.PoolType
    requires handler != EmptyHandler
  {
    match handler
    case MintHandler => PoolEvent.Mint
    case BurnHandler => PoolEvent.Burn
    case SwapHandler => PoolEvent.Swap
    case SyncHandler => PoolEvent.Sync
    case TransferHandler => PoolEvent.Transfer
  }

  /** `event.combine(data)` for a pair handler: its `process`, then `save`.
      Only the Sync handler touches the history modules. */
  function Combine(st: State, e: PoolEvent.Event, handler: Handler, decoded: Decoded): (r: Result<State>)
    requires Valid(st) && !st.firstBatch && NonZeroSync(decoded)
    ensures r.Ok? ==> Valid(r.value) && !r.value.firstBatch
    ensures r.Ok? ==> r.value.store.flushes == st.store.flushes
    ensures r.Ok? && !decoded.SyncLog? ==> r.value.history == st.history
  {
    match decoded
    case MintLog(a) => if handler == MintHandler then SaveEvent(st, Handlers.ProcessMint(e, a)) else Err(Mismatch)
    case BurnLog(a) => if handler == BurnHandler then SaveEvent(st, Handlers.ProcessBurn(e, a)) else Err(Mismatch)
    case SwapLog(a) => if handler == SwapHandler then SaveEvent(st, Handlers.ProcessSwap(e, a)) else Err(Mismatch)
    case TransferLog(a) =>
      if handler == TransferHandler
      then SaveEvent(st, Handlers.ProcessTransfer(e, a, LatestTotalSupply(st.store.events, e.poolId)))
      else Err(Mismatch)
    case SyncLog(a) =>
      if handler == SyncHandler then
        var synced :- Handlers.ProcessSync(e, a, PoolMetaOf(st.store.registry, e.poolId), st.history);
        SaveEvent(st.(history := synced.1), synced.0)
      else Err(Mismatch)
    case _ => Err(Mismatch)
  }

  const Mismatch := "decoded arguments do not match the topic"

  /** `processPairEvent`: the log is decoded against the pair ABI (a log
      without topics or with one the ABI does not know throws), the handler is picked by topic, and an event
      of a real handler is built and combined; `EmptyEvent` does nothing. */
  function ProcessPairEvent(st: State, log: Log, h: Header): (r: Result<State>)
    requires Valid(st) && !st.firstBatch && NonZeroSync(log.decoded)
    ensures r.Ok? ==> Valid(r.value) && !r.value.firstBatch
    ensures log.decoded.Undecodable? || |log.topics| == 0 ==> r.Err?
    ensures (!log.decoded.Undecodable? && |log.topics| > 0 && SelectPoolEvent(Topic0(log.topics)) == EmptyHandler)
              ==> r == Ok(st)
    ensures log.extrinsic.None? && SelectPoolEvent(Topic0(log.topics)) != EmptyHandler ==> r.Err?
    ensures r.Ok? ==> r.value.store.flushes == st.store.flushes
    ensures r.Ok? && !log.decoded.SyncLog? ==> r.value.history == st.history
  {
    if log.decoded.Undecodable? || |log.topics| == 0 then Err("no matching event")
    else
      var handler := SelectPoolEvent(Topic0(log.topics));
      if handler == EmptyHandler then Ok(st)
      else
        var data := PoolEvent.PairData(log.address, h.height, log.id, DayStart(h.timestamp), log.extrinsic);
        var e :- PoolEvent.New(data, KindOf(handler));
        Combine(st, e, handler, log.decoded)
  }

  /** The factory branch: decode PairCreated, `process`, then `save`. */
  function ProcessFactory(st: State, log: Log, h: Header, env: Env): (r: Result<State>)
    ensures r.Ok? ==> r.value.history == st.history && r.value.firstBatch == st.firstBatch
    ensures r.Ok? ==> r.value.store.events == st.store.events && r.value.store.flushes == st.store.flushes
    ensures !log.decoded.PairCreatedLog? ==> r.Err?
    ensures r.Ok? ==>
      var args := log.decoded.created;
      && args.pair in r.value.store.registry.pools
      && args.token0 in r.value.store.registry.tokens && args.token1 in r.value.store.registry.tokens
      && r.value.verifyRequests == st.verifyRequests + (if env.verify then [args.pair] else [])
  {
    match log.decoded
    case PairCreatedLog(args) =>
      var e := Factory.Process(Factory.New(log.id), args, h.height);
      var saved :- Factory.Save(e, st.store.registry, env.tokens, env.verify);
      var requests := if saved.1 then st.verifyRequests + [args.pair] else st.verifyRequests;
      Ok(st.(store := st.store.(registry := saved.0), verifyRequests := requests))
    case _ => Err("PairCreated decode failed")
  }

  /** One item of a block: only `EVM.Log` items count; a PairCreated log goes
      to the factory whatever its address; any other log is handled only when
      its address is a registered pool, and dropped otherwise. */
  function ProcessItem(st: State, item: Item, h: Header, env: Env): (r: Result<State>)
    requires Valid(st) && !st.firstBatch && NonZeroSync(item.log.decoded)
    ensures r.Ok? ==> Valid(r.value) && !r.value.firstBatch && r.value.store.flushes == st.store.flushes
    ensures item.name != "EVM.Log" ==> r == Ok(st)
    ensures item.name == "EVM.Log" && Topic0(item.log.topics) == PairCreatedTopic ==> r == ProcessFactory(st, item.log, h, env)
    ensures (item.name == "EVM.Log" && Topic0(item.log.topics) != PairCreatedTopic
             && item.log.address !in st.store.registry.pools) ==> r == Ok(st)
  {
    if item.name != "EVM.Log" then Ok(st)
    else if |item.log.topics| > 0 && item.log.topics[0] == PairCreatedTopic then ProcessFactory(st, item.log, h, env)
    else if item.log.address !in st.store.registry.pools then Ok(st)
    else ProcessPairEvent(st, item.log, h)
  }

  ghost predicate NonZeroSyncs(blocks: seq<Block>) {
    forall b, i :: 0 <= b < |blocks| && 0 <= i < |blocks[b].items| ==> NonZeroSync(blocks[b].items[i].log.decoded)
  }

  function ProcessItems(st: State, items: seq<Item>, h: Header, env: Env): (r: Result<State>)
    requires Valid(st) && !st.firstBatch
    requires forall i :: 0 <= i < |items| ==> NonZeroSync(items[i].log.decoded)
    ensures r.Ok? ==> Valid(r.value) && !r.value.firstBatch && |r.value.store.flushes| == |st.store.flushes|
    decreases |items|
  {
    if |items| == 0 then Ok(st)
    else
      var st' :- ProcessItem(st, items[0], h, env);
      ProcessItems(st', items[1..], h, env)
  }

  /** One block: its items in order, then one `MarketHistory.save`. */
  function ProcessBlock(st: State, b: Block, env: Env): (r: Result<State>)
    requires Valid(st) && !st.firstBatch
    requires forall i :: 0 <= i < |b.items| ==> NonZeroSync(b.items[i].log.decoded)
    ensures r.Ok? ==> Valid(r.value) && !r.value.firstBatch && |r.value.store.flushes| == |st.store.flushes| + 1
  {
    var st1 :- ProcessItems(st, b.items, b.header, env);
    var saved :- MarketHistory.Save(st1.history, b.header, b.now, b.oracle);
    Ok(st1.(history := saved.0, store := st1.store.(flushes := st1.store.flushes + [saved.1])))
  }

  function ProcessBlocks(st: State, blocks: seq<Block>, env: Env): (r: Result<State>)
    requires Valid(st) && !st.firstBatch && NonZeroSyncs(blocks)
    ensures r.Ok? ==> Valid(r.value) && !r.value.firstBatch
    ensures r.Ok? ==> |r.value.store.flushes| == |st.store.flushes| + |blocks|
    decreases |blocks|
  {
    if |blocks| == 0 then Ok(st)
    else
      var st' :- ProcessBlock(st, blocks[0], env);
      assert NonZeroSyncs(blocks[1..]) by {
        forall b, i | 0 <= b < |blocks[1..]| && 0 <= i < |blocks[1..][b].items|
          ensures NonZeroSync(blocks[1..][b].items[i].log.decoded)
        {
          assert blocks[1..][b] == blocks[b + 1];
        }
      }
      ProcessBlocks(st', blocks[1..], env)
  }

  /** The batch handler: on the first batch, the history modules are
      initialised once from the height before its first block (reading the
      first block of an empty batch throws); then every block is processed. */
  function ProcessBatch(st: State, blocks: seq<Block>, env: Env): (r: Result<State>)
    requires Valid(st) && GoodEnv(env) && NonZeroSyncs(blocks)
    ensures r.Ok? ==> Valid(r.value) && !r.value.firstBatch
    ensures r.Ok? ==> |r.value.store.flushes| == |st.store.flushes| + |blocks|
    ensures st.firstBatch && |blocks| == 0 ==> r.Err?
    ensures st.firstBatch && |blocks| > 0 ==>
      (var init := MarketHistory.Init(st.history, env.snapshotAt(blocks[0].header.height - 1));
       && (init.Err? ==> r == Err(init.error))
       && (init.Ok? ==> r == ProcessBlocks(st.(firstBatch := false, history := init.value), blocks, env)))
    ensures !st.firstBatch ==> r == ProcessBlocks(st, blocks, env)
  {
    if st.firstBatch then
      if |blocks| == 0 then Err("Cannot read properties of undefined (reading 'header')")
      else
        var snap := env.snapshotAt(blocks[0].header.height - 1);
        var history :- MarketHistory.Init(st.history, snap);
        ProcessBlocks(st.(firstBatch := false, history := history), blocks, env)
    else ProcessBlocks(st, blocks, env)
  }

  // ---------------------------------------------------------------------
  // Properties of the loop
  // ---------------------------------------------------------------------

  /** Splitting a run of blocks into two batches gives the same result as one
      batch: nothing but the first batch initialises. */
  lemma {:induction false} BlocksSplit(st: State, b1: seq<Block>, b2: seq<Block>, env: Env)
    requires Valid(st) && !st.firstBatch && NonZeroSyncs(b1 + b2)
    ensures NonZeroSyncs(b1) && NonZeroSyncs(b2)
    ensures ProcessBlocks(st, b1 + b2, env)
         == (var mid :- ProcessBlocks(st, b1, env); ProcessBlocks(mid, b2, env))
    decreases |b1|
  {
    BlocksSplitSyncs(b1, b2);
    if |b1| == 0 {
      assert b1 + b2 == b2;
    } else {
      assert (b1 + b2)[0] == b1[0];
      assert (b1 + b2)[1..] == b1[1..] + b2;
      var first := ProcessBlock(st, b1[0], env);
      if first.Ok? {
        BlocksSplit(first.value, b1[1..], b2, env);
      }
    }
  }

  lemma BlocksSplitSyncs(b1: seq<Block>, b2: seq<Block>)
    requires NonZeroSyncs(b1 + b2)
    ensures NonZeroSyncs(b1) && NonZeroSyncs(b2)
  {
    forall b, i | 0 <= b < |b1| && 0 <= i < |b1[b].items|
      ensures NonZeroSync(b1[b].items[i].log.decoded)
    {
      assert (b1 + b2)[b] == b1[b];
    }
    forall b, i | 0 <= b < |b2| && 0 <= i < |b2[b].items|
      ensures NonZeroSync(b2[b].items[i].log.decoded)
    {
      assert (b1 + b2)[|b1| + b] == b2[b];
    }
  }

  /** A mint or burn Transfer from a registered pool, with a fresh event id,
      appends one row whose total supply is the pool's previous total plus the
      signed amount, and that row becomes the pool's latest total. */
  lemma TransferExtendsSupply(st: State, log: Log, h: Header)
    requires Valid(st) && !st.firstBatch
    requires log.address in st.store.registry.pools
    requires Topic0(log.topics) == TransferTopic && log.decoded.TransferLog?
    requires Handlers.IsMintOrBurn(log.decoded.transfer)
    requires log.extrinsic.Some? && log.extrinsic.value.signer.Some?
    requires forall k :: 0 <= k < |st.store.events| ==> st.store.events[k].id != log.id
    ensures var r := ProcessPairEvent(st, log, h);
            var events := st.store.events;
            var total := LatestTotalSupply(events, log.address) + Handlers.Delta(log.decoded.transfer);
            && r.Ok?
            && |r.value.store.events| == |events| + 1
            && r.value.store.events[..|events|] == events
            && r.value.store.events[|events|].kind == PoolEvent.Transfer
            && r.value.store.events[|events|].supply == Handlers.Delta(log.decoded.transfer)
            && r.value.store.events[|events|].totalSupply == total
            && LatestTotalSupply(r.value.store.events, log.address) == total
  {
    var a := log.decoded.transfer;
    var events := st.store.events;
    var prev := LatestTotalSupply(events, log.address);
    var data := PoolEvent.PairData(log.address, h.height, log.id, DayStart(h.timestamp), log.extrinsic);
    var e := PoolEvent.New(data, PoolEvent.Transfer).value;
    var e' := Handlers.ProcessTransfer(e, a, prev);
    PoolEvent.ParseZero();
    assert PoolEvent.AllAmountsParse(e');
    var saved := PoolEvent.Save(e', st.store.registry.pools.Keys);
    assert saved.Ok? && saved.value.Some?;
    var row := saved.value.value;
    assert row.supply == Handlers.Delta(a);
    assert Some(row.totalSupply) == PoolEvent.Amount(e'.totalSupply);
    assert row.totalSupply == prev + Handlers.Delta(a);
    assert PoolEvent.IdIndex(events, row.id) == -1;
    var events' := PoolEvent.Upsert(events, row);
    assert events' == events + [row];
    LatestOfAppended(events, row, log.address);
    assert ProcessPairEvent(st, log, h) == Ok(st.(store := st.store.(events := events')));
  }

  /** The processor as written builds the pair event without the log's
      extrinsic, so the event constructor reads a property of `undefined`. */
  function ProcessPairEventAsWritten(st: State, log: Log, h: Header): (r: Result<State>)
    requires Valid(st) && !st.firstBatch && NonZeroSync(log.decoded)
    ensures SelectPoolEvent(Topic0(log.topics)) != EmptyHandler ==> r.Err?
  {
    ProcessPairEvent(st, log.(extrinsic := None), h)
  }

  /** As written, a Mint log of a registered pool is never saved, although
      the same log with its extrinsic is. */
  lemma MissingExtrinsicDropsMint(st: State, log: Log, h: Header)
    requires Valid(st) && !st.firstBatch
    requires log.address in st.store.registry.pools
    requires Topic0(log.topics) == MintTopic && log.decoded.MintLog?
    requires log.extrinsic.Some? && log.extrinsic.value.signer.Some?
    ensures ProcessPairEventAsWritten(st, log, h).Err?
    ensures ProcessPairEvent(st, log, h).Ok?
    ensures log.id in PoolEventIds(ProcessPairEvent(st, log, h).value.store.events)
  {
    var data := PoolEvent.PairData(log.address, h.height, log.id, DayStart(h.timestamp), log.extrinsic);
    var e := PoolEvent.New(data, PoolEvent.Mint).value;
    var e' := Handlers.ProcessMint(e, log.decoded.mint);
    Handlers.MintSavesArgs(e, log.decoded.mint, st.store.registry.pools.Keys);
    var row := PoolEvent.Save(e', st.store.registry.pools.Keys).value.value;
    var events' := PoolEvent.Upsert(st.store.events, row);
    assert row in events' && row.id == log.id;
  }

  function PoolEventIds(rows: seq<PoolEvent.Row>): set<string> {
    set k | 0 <= k < |rows| :: rows[k].id
  }
}
