# Reef DEX indexer — a Dafny model

This project models the core of the Reef chain DEX indexer. The indexer reads
the EVM logs of the ReefSwap factory and its pair contracts, block by block. It
turns each log into a `PoolEvent` row, a `Token`/`Pool` registration or a
`Transfer` supply update. At every block boundary it flushes four in-memory
"history modules" into per-block rows: volume, reserves, token prices and
candlesticks. A family of SQL views then rolls those rows up into minute, hour,
day and week buckets.

The model is written in terms of immutable datatypes and pure functions:

- `Common`: `Option`/`Result`, decimal text of integers, `split`/`join`, `padStart`
  and the `${height}-${key}` row id.
- `Auth`: the GraphQL server's bearer-token check for mutations.
- `Volume`, `Reserves`, `TokenPrices`, `Candlestick`: the four history modules.
  Each has `init` (rehydration from stored rows), its update operation and
  `save` (the per-block flush).
- `ReefPrice`: the day-keyed cache in front of the REEF price oracle. The oracle
  and the clock are parameters.
- `MarketHistory`: the module list and the ordered `init`/`save` fan-out.
- `Factory`: `PairCreated` handling, which creates tokens and the pool.
- `PoolEvent`, `Handlers`: the pair-event base class and the Mint, Burn, Swap,
  Sync and Transfer handlers.
- `Processor`: batch and block iteration, topic dispatch, the first-batch `init`
  at `height - 1` and one flush per block.
- `Buckets`: generic grouping of rows by (key, truncated time). It defines what
  the SQL window functions compute over a bucket.
- `Windows`: the `*_raw` views over the per-block tables (volume, reserved,
  token price, candlestick, fee) and the `change` function.
- `PoolViews`: the per-pool views over `pool_event`. These are ratio, fee,
  volume, supply, and locked in its two versions.

The store is a value threaded through the handlers. I/O, the oracle, the clock
and the chain are inputs. Where the code and the system's design description
disagree, the model follows the code:

- The reserve-ratio matrix entry `[i][j]` is `reserve_i / reserve_j`, as
  `TokenPrices.updateReserves` writes it. The design description has the
  reciprocal.
- Re-estimation is skipped unless a pool touching REEF was updated or the REEF
  price changed. The design description ties the skip to the REEF price alone.
- `Sync` reads the token decimals of the registered tokens. The source reads
  `decimal1`/`decimal2` from the `Pool` entity, which has neither. It has one
  `decimals` field, and `token1`/`token2` are relations to `Token`.
- `fee_raw` multiplies volumes by 0.0003 (0.03%), while the comment above it
  in the migration calls the fee 0.3%. The model follows the code.

## Model

| member | source | states |
|---|---|---|
| Auth.AuthChecker | src/server-extension/check.ts:36-44 | a request is accepted exactly when a secret is configured and non-empty and the authorization header is `Bearer ` followed by that secret |
| Auth.RequestCheck | src/server-extension/check.ts:27-34 | queries are always allowed; a mutation is allowed exactly when the bearer check accepts it |
| Auth.OneAcceptedHeader | src/server-extension/check.ts:41-43 | for a given secret at most one header value is accepted |
| Auth.BearerAccepted | src/server-extension/check.ts:36-44 | with a non-empty secret, the header `Bearer <secret>` is accepted |
| Volume.Init | src/process/historyModules/Volume.ts:17-21 | rehydration takes the pool list from the store as it is and does not touch the block accumulator; a duplicate-free store list gives a valid state |
| Volume.Apply | src/process/historyModules/Volume.ts:23-40 | updating a pool unknown to both the pool list and the store fails; the first update in a block stores the amounts, later ones add them componentwise; other pools are untouched and the pool list only grows |
| Volume.ApplyAllAccumulates | src/process/historyModules/Volume.ts:23-40 | after a block of updates, each pool's entry is the componentwise sum of its own updates |
| Volume.TwoSwapsInOneBlock | src/process/historyModules/Volume.ts:32-39 | two swaps of 100 and 50 on one pool in one block record 150 |
| Volume.Save | src/process/historyModules/Volume.ts:42-58 | the flush emits one row per known pool, in list order, with id `${height}-${pool}`, zero for pools without trades; it then empties the accumulator |
| Volume.SaveIdsDistinct | src/process/historyModules/Volume.ts:44-46 | the ids of one flush are pairwise distinct |
| Reserves.Update | src/process/historyModules/Reserves.ts:34-44 | the latest update of a pool wins (event id and both reserves); other pools keep their entries; the parallel lists stay aligned and duplicate-free |
| Reserves.UpdateAllIsLastWrite | src/process/historyModules/Reserves.ts:24-44 | after any sequence of updates a pool's entry is exactly its last update in that sequence, and pools never updated are absent |
| Reserves.InitIsLastStored | src/process/historyModules/Reserves.ts:14-32 | rehydration yields, per pool, the last stored reserve row for it |
| Reserves.Save | src/process/historyModules/Reserves.ts:46-63 | the flush emits one row per pool ever seen, carrying that pool's latest event id and reserves, with id `${height}-${pool}` |
| Reserves.Init | src/process/historyModules/Reserves.ts:14-32 | rehydration gives a well-formed state: the pool and reserve lists stay aligned and duplicate-free |
| Reserves.SaveRepeatsStalePools | src/process/historyModules/Reserves.ts:46-63 | for any pool other than the one updated in a block, the flush still emits a row for it with id `${height}-${pool}` and its previous reserves |
| Candlestick.Update | src/process/historyModules/Candlestick.ts:39-56 | a new (pool, token) key opens a flat candle at the price; an existing one keeps its open, takes the price as close, and widens high and low to include it; well-formedness (low <= open, close <= high) is kept |
| Candlestick.RollForward | src/process/historyModules/Candlestick.ts:70-85 | at the block boundary every candle becomes flat at its close; the key set is unchanged |
| Candlestick.KeyPartsOfKey | src/process/historyModules/Candlestick.ts:92 | splitting a `pool:token` key on `:` gives back the pool and the token when neither contains `:` |
| Candlestick.KeyPartsOfColonPool | src/process/historyModules/Candlestick.ts:92 | a pool address containing `:` would not be recovered by the split |
| Candlestick.Save | src/process/historyModules/Candlestick.ts:87-110 | the flush emits one row per key, in key order, with the pool and token split from the key, the candle's OHLC and id `${height}-${pool}-${token}`; afterwards every candle is flat at its close and well-formed |
| Candlestick.Init | src/process/historyModules/Candlestick.ts:24-37 | rehydration gives a consistent state whose every candle is flat (open, high, low and close equal) and therefore well formed |
| Candlestick.InitIsLastClose | src/process/historyModules/Candlestick.ts:24-37 | after rehydration a (pool, token) key has a candle exactly when a stored row names it, and the candle is flat at the close of the last such row |
| Candlestick.NextBlockOpensAtPreviousClose | src/process/historyModules/Candlestick.ts:70-110 | for any existing key and any next price, the first update after a flush opens at the close just saved, closes at the new price, and has high and low the larger and smaller of the two |
| TokenPrices.Dot | src/process/historyModules/TokenPrices.ts:10 | the dot product of two vectors |
| TokenPrices.RowDotUnit | src/process/historyModules/TokenPrices.ts:10-23 | a row times the unit vector scaled by p at slot k is the row's k-th entry times p |
| TokenPrices.Estimate | src/process/historyModules/TokenPrices.ts:12-27 | the REEF slot holds the REEF price; every other slot i holds `matrix[i][reef] * reefPrice` |
| TokenPrices.AddToken | src/process/historyModules/TokenPrices.ts:113-125 | a new token gets the next index, its price, and a zero row and column; an existing token is left alone; old entries are unchanged |
| TokenPrices.AddPool | src/process/historyModules/TokenPrices.ts:78-81 | registering a pool makes both of its tokens known, adds at most two tokens, and keeps the earlier token list as a prefix |
| TokenPrices.UpdateReserves | src/process/historyModules/TokenPrices.ts:83-105 | fails with "Token not found" exactly when a token is unknown; otherwise `M[i][j] = r1/r2` and `M[j][i] = r2/r1` (the second write wins when i = j), every other matrix entry, token and price is unchanged, and the skip flag is cleared only for pools touching REEF |
| TokenPrices.EstimatePrice | src/process/historyModules/TokenPrices.ts:127-149 | prices are re-estimated from the REEF price when the skip flag is clear or the REEF price changed, and kept otherwise; the skip flag is set afterwards |
| TokenPrices.EstimatePriceIdempotent | src/process/historyModules/TokenPrices.ts:127-149 | estimating twice with the same REEF price is the same as estimating once |
| TokenPrices.NonReefUpdateIsSkipped | src/process/historyModules/TokenPrices.ts:99-104 | after an estimate, a reserve update on a pool without REEF does not change the next estimate for an unchanged REEF price |
| TokenPrices.PriceIdInjective | src/process/historyModules/TokenPrices.ts:157 | the row id (the height padded to nine digits, then the token) tells tokens of one height apart |
| TokenPrices.InsertPrices | src/process/historyModules/TokenPrices.ts:151-167 | one row per token, in token order, with that token's price and id |
| TokenPrices.InsertPricesIdsDistinct | src/process/historyModules/TokenPrices.ts:151-167 | the ids of one flush are pairwise distinct |
| TokenPrices.Save | src/process/historyModules/TokenPrices.ts:107-110 | the flush emits one row per token, in token order, with its id, the block height and the price just estimated; when a re-estimate happens the REEF row carries the REEF price given and every other row `matrix[i][reef] * reefPrice`, and when it is skipped the stored prices are emitted unchanged; tokens and matrix are unchanged and the skip flag is set |
| TokenPrices.AddAll | src/process/historyModules/TokenPrices.ts:49-52 | after loading stored price rows, a token is known exactly when it was known before or is named by a row; the skip flag is kept |
| TokenPrices.AddAllPrices | src/process/historyModules/TokenPrices.ts:49-52 | loading keeps the earlier tokens and prices as prefixes, and each newly listed token gets the price of the first row naming it, since `addToken` ignores a token it already holds |
| TokenPrices.UpdateAll | src/process/historyModules/TokenPrices.ts:60-70 | replaying stored reserves fails with "Token not found" exactly when a row names an unknown token, and otherwise leaves the tokens and prices unchanged |
| TokenPrices.UpdateAllRatios | src/process/historyModules/TokenPrices.ts:60-70 | after a successful replay, each ratio `M[a][b]` is the one the last stored row naming that pair wrote (`r1/r2` at `[token1][token2]`, `r2/r1` at `[token2][token1]`, the latter winning when the tokens coincide), and every ratio no row wrote is unchanged |
| TokenPrices.Init | src/process/historyModules/TokenPrices.ts:38-76 | rehydration fails with "Token not found" exactly when a stored reserve row names a token without a stored price; otherwise REEF is a known token |
| TokenPrices.InitLoads | src/process/historyModules/TokenPrices.ts:38-76 | after a successful rehydration the tokens are those of the stored price rows plus REEF; each listed token holds the price of its first stored row; REEF, when no row lists it, comes last at price 0; every ratio is the one the last stored reserve row naming that pair wrote, and 0 when none did |
| ReefPrice.IsoDate | src/process/historyModules/ReefPriceScrapper.ts:21-23 | `toISOString` of an epoch time fails exactly outside ±8.64e15 ms |
| ReefPrice.IsoDateReadsBack | src/process/historyModules/ReefPriceScrapper.ts:21-23 | for a year within 0..9999 the date has the `YYYY-MM-DD` shape and its fields read back as the calendar date of the time's UTC day, which maps back to that day number |
| ReefPrice.CivilRoundTrip | src/process/historyModules/ReefPriceScrapper.ts:21-23 | the day number of the calendar date computed for a day is that day again |
| ReefPrice.Date2StringSwaps | src/process/historyModules/ReefPriceScrapper.ts:21-26 | the cache key is the ISO date with the day and year fields exchanged |
| ReefPrice.Date2StringInvolution | src/process/historyModules/ReefPriceScrapper.ts:24-26 | applying the field swap twice gives back the ISO date |
| ReefPrice.SameDaySameKey | src/process/historyModules/ReefPriceScrapper.ts:63 | two timestamps of one UTC day share a cache key |
| ReefPrice.EpochKey | src/process/historyModules/ReefPriceScrapper.ts:21-26 | time 0 maps to the key `01-01-1970` |
| ReefPrice.GetPrice | src/process/historyModules/ReefPriceScrapper.ts:57-75 | an invalid time fails with `Invalid time value`; a valid time within the last minute is priced from the current oracle; otherwise the day key exists, a truthy cache hit is returned unchanged, and on a miss the historical oracle is asked and the answer is cached under the day key |
| ReefPrice.SameDayServedFromCache | src/process/historyModules/ReefPriceScrapper.ts:63-68 | once a non-zero price is cached for a day, later old timestamps of that day are served from the cache |
| ReefPrice.CachedZeroRefetches | src/process/historyModules/ReefPriceScrapper.ts:66-74 | for any oracle answer p, a cached price of 0 is falsy, so p is fetched again and cached under the day key |
| Factory.Process | src/process/events/FactoryEvent.ts:17-29 | decoding a `PairCreated` log records the pair, both token addresses and the block height, and keeps the event id |
| Factory.NewToken | src/process/events/FactoryEvent.ts:45-62 | a new token has the address as id; missing name, symbol or decimals become "" or 0; the icon is the contract icon, falling back to the token-list icon; the approval flag comes from the token list |
| Factory.GetOrCreate | src/process/events/FactoryEvent.ts:37-64 | an already registered token is kept as it is; otherwise a new token is created |
| Factory.Save | src/process/events/FactoryEvent.ts:31-109 | saving before processing fails with the source's message; otherwise exactly the two tokens are added when missing, existing tokens are kept unchanged, the pool is stored with 18 decimals and unverified, and verification is requested exactly when the static flag is set |
| Factory.RecreateKeepsTokens | src/process/events/FactoryEvent.ts:37-104 | saving the same pair a second time keeps every token and rewrites only the pool's event id |
| PoolEvent.New | src/process/events/PoolEvent.ts:54-65 | construction fails exactly when the extrinsic or its signer is missing; the index in block defaults to 0, the signer comes from the extrinsic, id, pool, height and timestamp are copied, and all amounts are unset |
| PoolEvent.Amount | src/process/events/PoolEvent.ts:86-93 | an absent field is stored as 0 and a present one as its value |
| PoolEvent.Save | src/process/events/PoolEvent.ts:72-98 | a Transfer whose supply text is empty is skipped; a missing pool fails with `Pool with id X not found`; otherwise the row carries the event's id, pool, type, fields (absent ones as 0) and timestamp |
| PoolEvent.UntouchedEventSavesZeros | src/process/events/PoolEvent.ts:86-93 | an event whose handler set no fields saves all amounts and reserves as 0 |
| PoolEvent.Upsert | src/process/events/PoolEvent.ts:97 | after saving, the row is stored; the table grows by one row exactly when the id is new; rows with other ids are unchanged; ids stay unique |
| Handlers.ProcessMint | src/process/events/MintEvent.ts:11-18 | the event keeps its header, takes the sender and both amounts from the log, and every other field is unchanged |
| Handlers.ProcessBurn | src/process/events/BurnEvent.ts:11-19 | the event keeps its header, takes the sender, both amounts and the receiver from the log, and every other field is unchanged |
| Handlers.ProcessSwap | src/process/events/SwapEvent.ts:10-20 | the event keeps its header, takes the sender, the four in/out amounts and the receiver from the log, and every other field is unchanged |
| Handlers.MintSavesArgs | src/process/events/MintEvent.ts:11-18 | a Mint row carries amount1 and amount2 from the log, and its in-amounts, reserves, supply and total supply are 0 |
| Handlers.BurnSavesArgs | src/process/events/BurnEvent.ts:11-19 | a Burn row carries amount1, amount2 and the receiver from the log |
| Handlers.SwapSavesArgs | src/process/events/SwapEvent.ts:10-20 | a Swap row carries the four in/out amounts and the receiver from the log |
| Handlers.SupplyText | src/process/events/TransferEvent.ts:28 | the supply text is the amount's decimal text, with a leading `-` exactly for a burn |
| Handlers.TotalText | src/process/events/TransferEvent.ts:24-27 | the total-supply text parses back to the previous total plus the signed amount |
| Handlers.ProcessTransfer | src/process/events/TransferEvent.ts:11-31 | a transfer that is neither a mint nor a burn is left unchanged; otherwise the new total is the previous total plus the signed amount, and the supply text starts with `-` exactly for a burn |
| Handlers.TransferLedger | src/process/events/TransferEvent.ts:19-28 | over any sequence of mints and burns the last total equals the sum of the signed amounts |
| Handlers.SyncPrices | src/process/events/SyncEvent.ts:32-37 | the cross prices are `reserve2/reserve1` and `reserve1/reserve2` after scaling by the token decimals |
| Handlers.CrossPricesReciprocal | src/process/events/SyncEvent.ts:36-37 | the two cross prices of a sync multiply to 1 |
| Handlers.SyncPriceExample | src/process/events/SyncEvent.ts:32-37 | a sync of 1000e18 and 2000e6 with decimals 18 and 6 gives reserves 1000 and 2000, price1 2 and price2 0.5 |
| Handlers.ProcessSync | src/process/events/SyncEvent.ts:15-44 | fails when the pool has no metadata, with the source's message, or when a token is unknown to the price module; otherwise the raw reserves are set on the event, the price matrix takes the decimal-scaled reserves, the reserves module takes the raw reserves and event id, and the candles of token1 then token2 take the cross prices; nothing else changes |
| Handlers.SyncCandles | src/process/events/SyncEvent.ts:42-43 | after a sync the (pool, token1) candle closes at the token1 price and the (pool, token2) candle at the token2 price; two new keys are added token1 first |
| Handlers.SyncSavesReserves | src/process/events/SyncEvent.ts:23-28 | the saved Sync row carries the raw reserves of the log |
| MarketHistory.Init | src/process/historyModules/index.ts:17-23 | the init fails exactly when the token price init fails; otherwise the volume pool list, the reserves and the candles are the stored ones, the price state is the token price rehydration, and the price cache is kept |
| MarketHistory.InitIsSequence | src/process/historyModules/index.ts:9-23 | the init is the module-by-module rehydration in list order |
| MarketHistory.SaveIsSequence | src/process/historyModules/index.ts:25-29 | the flush is the module-by-module save in list order and stops at the first failure |
| MarketHistory.Save | src/process/historyModules/index.ts:25-29 | the flush fails exactly when the REEF price lookup fails; otherwise the volume accumulator is reset, the reserves are unchanged, candle keys are kept and well-formed, prices are marked as estimated, and one row is emitted per pool, token and candle key |
| Processor.SelectPoolEvent | src/processor.ts:107-122 | each known topic selects its handler, and any other topic (including the empty one) selects the no-op handler |
| Processor.DayStart | src/processor.ts:93 | the event timestamp is the start of the block's UTC day |
| Processor.Combine | src/process/events/PoolEvent.ts:100-103 | handling is `process` then `save`; only a Sync touches the history modules |
| Processor.PoolMetaOf | src/process/events/SyncEvent.ts:18-21 | pool metadata exists exactly for a registered pool, with its registered tokens and the registry decimals of those tokens (0 for a token missing from the registry) |
| Processor.LatestTotalSupplyIsLastTransfer | src/process/events/TransferEvent.ts:19-25 | the previous total is 0 when the pool has no saved Transfer row, and otherwise the total of the pool's last saved Transfer row, with no later Transfer row of that pool |
| Processor.ProcessPairEvent | src/processor.ts:124-130 | a log with no topics or one that does not decode fails, as `parseLog` throws; a decoded topic with no handler leaves the state as it was; a log without an extrinsic fails; only a Sync changes the history; no flush happens |
| Processor.ProcessFactory | src/processor.ts:80-83 | a `PairCreated` log registers its pool and both tokens, appends a verification request exactly when the flag is set, and touches neither the history nor the events |
| Processor.ProcessItem | src/processor.ts:77-99 | items other than `EVM.Log` are ignored; factory logs go to the factory handler; logs of unknown addresses are dropped; logs of known pools go to the pair handler |
| Processor.ProcessBlock | src/processor.ts:75-104 | a block handles its items in order and then flushes the history exactly once |
| Processor.ProcessBlocks | src/processor.ts:75-104 | a batch flushes once per block |
| Processor.ProcessBatch | src/processor.ts:62-105 | the first batch rehydrates the history at the first block's height minus one before any block; an empty first batch fails; later batches just process their blocks; the store is flushed once per block |
| Processor.BlocksSplit | src/processor.ts:60-73 | handling blocks in two batches is the same as handling them in one |
| Processor.TransferExtendsSupply | src/process/events/TransferEvent.ts:19-28 | a mint or burn of a registered pool stores one new Transfer row whose supply is the signed amount and whose total extends the previous one |
| Processor.ProcessPairEventAsWritten | src/processor.ts:88-95 | with the event built as written (no extrinsic), every Mint, Burn, Swap, Sync or Transfer log fails |
| Processor.MissingExtrinsicDropsMint | src/processor.ts:88-96 | a Mint log of a registered pool fails as written, while the same log handled with its extrinsic is saved |
| Windows.VolumeWindowRaw | db/migrations/1700000000000-Data.js:387-428 | one row per (pool, bucket) whose volumes are the sums over the bucket's rows |
| Windows.VolumeWindowConserves | db/migrations/1700000000000-Data.js:418-425 | summed over all buckets, the view's volumes equal the input's total volumes |
| Windows.ReservedOfBucket | db/migrations/1700000000000-Data.js:468-475 | a bucket's reserves are those of its latest row |
| Windows.ReservedWindowRaw | db/migrations/1700000000000-Data.js:437-478 | one row per (pool, bucket) carrying the reserves of the bucket's latest row |
| Windows.PriceOfBucket | db/migrations/1700000000000-Data.js:515-521 | a bucket's price is that of its latest row |
| Windows.TokenPriceWindow | db/migrations/1700000000000-Data.js:487-524 | one row per (token, bucket) carrying the latest price in the bucket |
| Windows.SinglePriceReported | db/migrations/1700000000000-Data.js:515-521 | a bucket with one row reports that row's price |
| Windows.RollUp | db/migrations/1700000000000-Data.js:365-375 | the roll-up opens at the earliest row's open, closes at the latest row's close, and its high and low bound every row |
| Windows.RollUpWellFormed | db/migrations/1700000000000-Data.js:368-371 | the roll-up of well-formed candles is well-formed |
| Windows.CandleWindowBy | db/migrations/1700000000000-Data.js:353-378 | one rolled-up candle per (partition key, token, bucket) |
| Windows.CandlestickWindow | db/migrations/1700000000000-Data.js:353-378 | grouped by pool, there is one well-formed candle per (pool, token, bucket) |
| Windows.CandlestickWindowWellFormed | db/migrations/1700000000000-Data.js:365-375 | every candle of the view is well-formed when its inputs are |
| Windows.CandlestickWindowAsWritten | db/migrations/1700000000000-Data.js:325-350 | the view as written partitions by the candle row id selected as `pool_id` |
| Windows.AsWrittenNeverAggregates | db/migrations/1700000000000-Data.js:338-374 | with distinct row ids, every output row of the view as written is a single input candle |
| Windows.SingleCandle | db/migrations/1700000000000-Data.js:365-375 | the roll-up of one candle is that candle |
| Windows.AsWrittenSplitsBucket | db/migrations/1700000000000-Data.js:338-375 | two candles of one pool and token in one bucket give two rows as written and one row when grouped by pool |
| Windows.FeeRaw | db/migrations/1700000000000-Data.js:533-542 | fee rows are the volume rows scaled by 0.0003 |
| Windows.BucketFees | db/migrations/1700000000000-Data.js:553-556 | a fee bucket's sums are 0.0003 times the volume sums of the same rows |
| Windows.FeeWindowRaw | db/migrations/1700000000000-Data.js:544-581 | one row per (pool, bucket) whose fees are the bucket sums |
| Windows.FeeWindowIsScaledVolume | db/migrations/1700000000000-Data.js:533-581 | the fee window equals the volume window scaled by 0.0003 |
| Windows.Change | db/migrations/1700000000000-Data.js:781-794 | a NULL or zero previous gives 0 when current is 0 and 100 otherwise; a NULL current over a non-zero previous gives NULL; otherwise the percentage change |
| Windows.ChangeRoundTrip | db/migrations/1700000000000-Data.js:790 | applying the reported change to a non-zero previous gives back the current value |
| PoolViews.RatioOf | db/migrations/1700000000000-Data.js:25-53 | `ratio1` is the decimal-scaled amount1 over amount_in2 when amount_in2 > 0 and the sentinel -1 otherwise; `ratio2` is amount2 over amount_in1 when amount_in1 > 0 and the sentinel 1 otherwise; `which_token` is 1 exactly when amount_in2 > 0, else 2 |
| PoolViews.PoolRatio | db/migrations/1700000000000-Data.js:8-61 | one ratio row per Swap event of a registered pool, in event order; other event types are skipped |
| PoolViews.Ratio1SentinelIsDistinct | db/migrations/1700000000000-Data.js:25-53 | a swap with a zero divisor is reported as -1, which no defined ratio produces |
| PoolViews.FeeLeg | db/migrations/1700000000000-Data.js:223-236 | a swap leg's fee is 0.3% of the amount in, or 0 when nothing came in |
| PoolViews.PoolPrepareFee | db/migrations/1685343581086-Data.js:106-137 | one fee row per Swap event, with 0.3% of each unscaled amount in |
| PoolViews.PoolFee | db/migrations/1685343581086-Data.js:138-157 | one output row per Swap event |
| PoolViews.PoolFeeTotals | db/migrations/1685343581086-Data.js:138-157 | each output row carries the fee sum of its whole (pool, bucket) |
| PoolViews.PoolFeeCoversOwnFee | db/migrations/1685343581086-Data.js:148-154 | a bucket's fee total is at least the fee of each of its swaps |
| PoolViews.PoolVolume | db/migrations/1685343581086-Data.js:79-98 | one volume row per Swap event carrying the volume sum of its (pool, bucket) |
| PoolViews.PoolVolumeMatchesGroups | db/migrations/1685343581086-Data.js:88-95 | every row of one bucket reports the same total, equal to the group sum |
| PoolViews.PoolSupply | db/migrations/1685343581086-Data.js:30-49 | one row per Transfer event, with its pool, bucket and own supply change, and a total supply that is the total of one of the Transfers of its (pool, bucket) |
| PoolViews.SupplyPeersAgree | db/migrations/1685343581086-Data.js:44-46 | all rows of one bucket report the same total supply, read from one of the bucket's Transfers |
| PoolViews.SupplyOfLoneTransfer | db/migrations/1685343581086-Data.js:44-46 | a bucket holding a single Transfer reports that Transfer's own total supply |
| PoolViews.PoolLockedV1 | db/migrations/1700000000000-Data.js:294-317 | one row per (pool, bucket) holding the sums of the reserves of the bucket's Sync events |
| PoolViews.LatestFrame | db/migrations/1700000000002-Data.js:29-33 | a pool's latest bucket exists exactly when it has a Sync event; it is the bucket of one of them and no earlier than any of them |
| PoolViews.PoolLockedV2 | db/migrations/1700000000002-Data.js:10-38 | a row is reported exactly for each Sync event that lies in its pool's latest bucket: one row per such event, in event order, each with that event's pool, bucket and reserves |
| PoolViews.LockedV2CoversPools | db/migrations/1700000000002-Data.js:27-34 | every pool with a Sync event has a row, at its latest bucket |
| PoolViews.LockedV2InLatestV1Bucket | db/migrations/1700000000002-Data.js:29-34 | every v2 row lies in a bucket that the v1 view reports for that pool, and no v1 bucket of that pool is later |

## Left out

- The Subsquid runtime, RPC, ABI decoding and address checksumming. Logs arrive already decoded, and `hexToNativeAddress` is taken as given through the signer field.
- The oracle HTTP calls (axios), logging, and `poolVerification`. The oracle's answers and the clock are parameters.
- The GraphQL resolvers and `poolTvl`, which are outside the indexing core.
- The DDL of the migrations, which only creates tables and indexes.
- `pool_candlestick` and the priced `volume`/`reserved`/`fee` views with their windows. The same bucket machinery covers them, but they are not modelled.
- The `*_change` views. Only the `change` function they call is modelled.
- Floating point and `BigNumber` rounding. Prices and ratios are exact rationals (`real`), and SQL `numeric` is `real` too.
- The `ORDER BY` of view outputs is not modelled. Where SQL leaves equal timestamps unordered, the model picks the last (or first) row in input order.
- `date_trunc` is an abstract truncation parameter, and the JOIN with `pool` is a map from pool id to decimals. `pool_ratio` reads `pl.decimal1`, and the model takes those decimals from that map.
- The fee view's block column is carried as the block id of the volume row.
- The 1685343581086 and 1700000000000 definitions of `pool_supply`, `pool_volume` and `pool_fee` are identical. The model cites the earlier file.
- TokenPrices.UpdateReserves: requires both reserves to be non-zero; the source would divide by zero.
- TokenPrices.UpdateAll: requires every stored reserve row to be non-zero, for the same reason; stored rows come from the database.
- TokenPrices.Init: requires every stored reserve row to be non-zero, for the same reason.
- MarketHistory.Init: requires a snapshot whose reserve rows are non-zero (`GoodSnapshot`), for the same reason.
- Processor.PoolMetaOf: the source destructures `decimal1` and `decimal2` from the `Pool` entity, which has neither (it has one `decimals` field). `token1`/`token2` are relations that `ctx.store.get` does not load, so as written `updateReserves` receives `undefined` and throws `Token not found`. The model takes both the token ids and their decimals from the registry.
- PoolViews.PoolSupply: `LAST_VALUE` over a partition ordered only by its own keys leaves every row of the partition as a peer, so SQL does not fix which row's total is read. The model reads the last row in input order and promises only that it is one of the bucket's totals, shared by the whole bucket.
- Handlers.ProcessSync: requires non-zero reserves, as for `UpdateReserves`. The source's guard for empty reserve text cannot fire, because a `uint` always prints as digits.
- Handlers.SyncPrices: requires non-zero reserves, for the same reason.
- TokenPrices.EstimatePrice: requires REEF to be a known token, which `init` guarantees.
- TokenPrices.Save: requires REEF to be a known token, which `init` guarantees.
- PoolViews.PoolFee: its own contract states only the row count. The per-bucket sums are stated by `PoolViews.PoolFeeTotals`.
- Handlers.ProcessTransfer: the previous total is the last Transfer row for the pool in insertion order. The source orders by a day-precision timestamp, and the model takes the latest insertion among equal days.
- Volume.Apply: no handler of the source calls `updateVolume`, so it is modelled but not wired into Swap.
- TokenPrices.AddPool: nothing in the source calls `addPool`, so it is modelled but not wired into the factory handler.
- Processor.DayStart: `toDateString()` truncates to the day in the process's local time zone. The model assumes UTC.
- The snapshot of stored rows used by `init` is an input rather than a database query, and days are UTC days. The source's queries would not return these rows as written. `Reserves.init` and `Candlestick.init` filter the text `blockId` by a numeric height, while `save` stores the block id. `TokenPrices.init` filters `ReservedRaw` by `blockHeight`, a column that entity lacks. `Candlestick.init` reads `pool.id` without loading the relation.

## Findings

| source | as written | input that shows it | evidently intended | confidence | as-written member | corrected member |
|---|---|---|---|---|---|---|
| src/processor.ts:88-95 | the `PairEvent` literal is built without `extrinsic`, but the `PoolEvent` constructor (src/process/events/PoolEvent.ts:60-63) reads `extrinsic.index` and `extrinsic.signature` | any Mint, Burn, Swap, Sync or Transfer log emitted by a registered pool | the item's extrinsic is passed on, so the event is built, handled and saved | medium, not executed | Processor.ProcessPairEventAsWritten, Processor.MissingExtrinsicDropsMint | Processor.ProcessPairEvent |
| db/migrations/1700000000000-Data.js:338-347 | `candlestick_prepare` selects the candle row id `c.id` as `pool_id`, so `candlestick_window` partitions by row and every "bucket" holds a single candle | two candle rows of one pool and token at blocks 10 and 11 within the same minute give two rows instead of one | select the candle's pool id, so a bucket rolls up all candles of a pool and token | high, not executed | Windows.CandlestickWindowAsWritten, Windows.AsWrittenNeverAggregates, Windows.AsWrittenSplitsBucket | Windows.CandlestickWindow, Windows.CandlestickWindowWellFormed |

