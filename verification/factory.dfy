/** The pool registry (`FactoryEvent`): a PairCreated log records its two
    tokens, created on first sight from ERC-20 metadata lookups, and a new
    unverified pool. */
module Factory {
  import opened Common

  datatype Token = Token(id: string, name: string, symbol: string, iconUrl: string, decimals: nat, approved: bool)

  datatype Pool = Pool(id: string, evmEventId: string, token1: string, token2: string, decimals: nat, verified: bool)

  /** The `Token` and `Pool` tables, keyed by id. */
  datatype Registry = Registry(tokens: map<string, Token>, pools: map<string, Pool>)

  /** The decoded PairCreated arguments (token0, token1, pair). */
  datatype PairCreatedArgs = PairCreatedArgs(token0: string, token1: string, pair: string)

  /** The fields `process` fills in before `save`. */
  datatype Event = Event(eventId: string, poolAddress: Option<string>, tokenAddress1: Option<string>,
                         tokenAddress2: Option<string>, blockHeight: Option<nat>)

  /** The ERC-20 contract calls, the icon lookup and the approval lookup for a
      token address; `None` is a call that threw. */
  datatype TokenOracle = TokenOracle(
    decimals: string -> Option<nat>, name: string -> Option<string>, symbol: string -> Option<string>,
    iconUri: string -> Option<string>, tokenIcon: string -> Option<string>, approved: string -> bool)

  /** `FactoryEvent.verify`. */
  const Verify := false

  /** The constructor: nothing set yet. */
  function New(eventId: string): Event {
    Event(eventId, None, None, None, None)
  }

  /** `process`: the arguments (tokenA, tokenB, pair) become token 1, token 2
      and the pool address, and the block height is recorded. */
  function Process(e: Event, args: PairCreatedArgs, height: nat): (r: Event)
    ensures r.eventId == e.eventId
    ensures r.tokenAddress1 == Some(args.token0) && r.tokenAddress2 == Some(args.token1)
    ensures r.poolAddress == Some(args.pair) && r.blockHeight == Some(height)
  {
    e.(tokenAddress1 := Some(args.token0), tokenAddress2 := Some(args.token1),
       poolAddress := Some(args.pair), blockHeight := Some(height))
  }

  predicate Truthy(o: Option<string>) {
    o.Some? && o.value != ""
  }

  /** The guard of `save`: every field set and truthy (a height of 0 is not). */
  predicate Ready(e: Event) {
    Truthy(e.poolAddress) && Truthy(e.tokenAddress1) && Truthy(e.tokenAddress2)
    && e.blockHeight.Some? && e.blockHeight.value != 0
  }

  /** `x || ''` on a lookup. */
  function OrEmpty(o: Option<string>): string {
    if Truthy(o) then o.value else ""
  }

  /** A token seen for the first time: failed name and symbol lookups give
      `''`, failed decimals give 0, and a failed `iconUri` call falls back to
      the icon service. */
  function NewToken(address: string, oracle: TokenOracle): (t: Token)
    ensures t.id == address
    ensures oracle.name(address).None? ==> t.name == ""
    ensures oracle.symbol(address).None? ==> t.symbol == ""
    ensures oracle.decimals(address).None? ==> t.decimals == 0
    ensures oracle.iconUri(address).Some? ==> t.iconUrl == OrEmpty(oracle.iconUri(address))
    ensures oracle.iconUri(address).None? ==> t.iconUrl == OrEmpty(oracle.tokenIcon(address))
    ensures t.approved == oracle.approved(address)
  {
    var icon := if oracle.iconUri(address).Some? then oracle.iconUri(address) else oracle.tokenIcon(address);
    Token(address, OrEmpty(oracle.name(address)), OrEmpty(oracle.symbol(address)), OrEmpty(icon),
          oracle.decimals(address).GetOr(0), oracle.approved(address))
  }

  /** Reuses a stored token unchanged, or creates and stores a new one. */
  function GetOrCreate(reg: Registry, address: string, oracle: TokenOracle): (r: Registry)
    ensures address in r.tokens
    ensures address in reg.tokens ==> r == reg
    ensures address !in reg.tokens ==> r == reg.(tokens := reg.tokens[address := NewToken(address, oracle)])
  {
    if address in reg.tokens then reg
    else reg.(tokens := reg.tokens[address := NewToken(address, oracle)])
  }

  /** `save`: throws unless `process` set every field; otherwise gets or
      creates token 1 then token 2, and saves the pool with 18 decimals,
      unverified. The flag says whether verification is requested. */
  function Save(e: Event, reg: Registry, oracle: TokenOracle, verify: bool): (r: Result<(Registry, bool)>)
    ensures r.Err? <==> !Ready(e)
    ensures r.Err? ==> r.error == "Not all required fields are set! Call process() first"
    ensures r.Ok? ==>
      var (reg', verifyRequested) := r.value;
      var pool := e.poolAddress.value;
      && reg'.pools == reg.pools[pool := Pool(pool, e.eventId, e.tokenAddress1.value, e.tokenAddress2.value, 18, false)]
      && e.tokenAddress1.value in reg'.tokens && e.tokenAddress2.value in reg'.tokens
      && reg.tokens.Keys <= reg'.tokens.Keys
      && reg'.tokens.Keys == reg.tokens.Keys + {e.tokenAddress1.value, e.tokenAddress2.value}
      && (forall t :: t in reg.tokens ==> reg'.tokens[t] == reg.tokens[t])
      && (forall t :: t in reg'.tokens && t !in reg.tokens ==> reg'.tokens[t] == NewToken(t, oracle))
      && verifyRequested == verify
  {
    if !Ready(e) then Err("Not all required fields are set! Call process() first")
    else
      var t1, t2, pool := e.tokenAddress1.value, e.tokenAddress2.value, e.poolAddress.value;
      var reg1 := GetOrCreate(reg, t1, oracle);
      var reg2 := GetOrCreate(reg1, t2, oracle);
      Ok((reg2.(pools := reg2.pools[pool := Pool(pool, e.eventId, t1, t2, 18, false)]), verify))
  }

  /** `combine` of a PairCreated: a second creation of the same pair rewrites
      only the pool's event id. */
  lemma RecreateKeepsTokens(id1: string, id2: string, args: PairCreatedArgs, height: nat, reg: Registry, oracle: TokenOracle)
    requires height != 0 && args.pair != "" && args.token0 != "" && args.token1 != ""
    ensures var r1 := Save(Process(New(id1), args, height), reg, oracle, Verify).value.0;
            var r2 := Save(Process(New(id2), args, height), r1, oracle, Verify).value.0;
            r2.tokens == r1.tokens && r2.pools == r1.pools[args.pair := r1.pools[args.pair].(evmEventId := id2)]
  {
  }
}
