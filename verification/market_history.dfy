/** The composite `MarketHistory`: a fixed list of the four history modules,
    initialised and flushed one after the other. It holds no state of its own
    beyond theirs (the REEF price cache of `ReefPriceScrapper` is carried here
    because `TokenPrices.save` is its only user). */
module MarketHistory {
  import opened Common
  import Volume
  import Reserves
  import TokenPrices
  import Candlestick
  import ReefPrice

  datatype State = State(volume: Volume.State, reserves: Reserves.State, prices: TokenPrices.State,
                         candles: Candlestick.State, priceCache: map<string, real>)

  datatype Module = VolumeModule | ReservesModule | TokenPricesModule | CandlestickModule

  /** The module order. */
  const Modules: seq<Module> := [VolumeModule, ReservesModule, TokenPricesModule, CandlestickModule]

  /** What the store holds for the height a module starts from: the pools,
      and the per-block rows each module reads back. */
  datatype Snapshot = Snapshot(pools: seq<string>, reserveRows: seq<Reserves.StoredRow>,
                               priceRows: seq<TokenPrices.PriceRow>, poolReserveRows: seq<TokenPrices.ReserveRow>,
                               candleRows: seq<Candlestick.StoredRow>)

  /** The rows one flush writes, per module. */
  datatype Output = Output(volume: seq<Volume.Row>, reserves: seq<Reserves.Row>,
                           prices: seq<TokenPrices.Row>, candles: seq<Candlestick.Row>)

  const NoOutput := Output([], [], [], [])

  function Concat(a: Output, b: Output): Output {
    Output(a.volume + b.volume, a.reserves + b.reserves, a.prices + b.prices, a.candles + b.candles)
  }

  /** The state of every module before anything ran. */
  const Initial := State(Volume.State([], map[]), Reserves.Empty, TokenPrices.State(false, [], [], []),
                         Candlestick.Empty, map[])

  ghost predicate Valid(s: State) {
    && Volume.Valid(s.volume)
    && Reserves.Valid(s.reserves)
    && TokenPrices.Valid(s.prices) && TokenPrices.ReefAddress in s.prices.tokens
    && Candlestick.Valid(s.candles)
  }

  /** Pool ids are primary keys, and stored reserves are non-zero. */
  ghost predicate GoodSnapshot(snap: Snapshot) {
    NoDuplicates(snap.pools) && TokenPrices.NonZero(snap.poolReserveRows)
  }

  // ---------------------------------------------------------------------
  // init
  // ---------------------------------------------------------------------

  function InitModule(m: Module, s: State, snap: Snapshot): (r: Result<State>)
    requires GoodSnapshot(snap)
  {
    match m
    case VolumeModule => Ok(s.(volume := Volume.Init(s.volume, snap.pools)))
    case ReservesModule => Ok(s.(reserves := Reserves.Init(snap.reserveRows)))
    case TokenPricesModule =>
      var p :- TokenPrices.Init(s.prices, snap.priceRows, snap.poolReserveRows);
      Ok(s.(prices := p))
    case CandlestickModule => Ok(s.(candles := Candlestick.Init(snap.candleRows)))
  }

  function InitAll(ms: seq<Module>, s: State, snap: Snapshot): Result<State>
    requires GoodSnapshot(snap)
    decreases |ms|
  {
    if |ms| == 0 then Ok(s)
    else
      var s' :- InitModule(ms[0], s, snap);
      InitAll(ms[1..], s', snap)
  }

  /** `init`: every module's `init`, once each, in module order, from the same
      snapshot. */
  function Init(s: State, snap: Snapshot): (r: Result<State>)
    requires GoodSnapshot(snap)
    ensures r.Ok? ==> Valid(r.value)
    ensures r.Err? <==> TokenPrices.Init(s.prices, snap.priceRows, snap.poolReserveRows).Err?
    ensures r.Ok? ==>
      && r.value.volume == Volume.State(snap.pools, s.volume.block)
      && r.value.reserves == Reserves.Init(snap.reserveRows)
      && r.value.prices == TokenPrices.Init(s.prices, snap.priceRows, snap.poolReserveRows).value
      && r.value.candles == Candlestick.Init(snap.candleRows)
      && r.value.priceCache == s.priceCache
  {
    InitIsSequence(s, snap);
    InitAll(Modules, s, snap)
  }

  /** The fold over the module list is the four `init`s in order. */
  lemma InitIsSequence(s: State, snap: Snapshot)
    requires GoodSnapshot(snap)
    ensures InitAll(Modules, s, snap)
         == (var p :- TokenPrices.Init(s.prices, snap.priceRows, snap.poolReserveRows);
             Ok(State(Volume.Init(s.volume, snap.pools), Reserves.Init(snap.reserveRows), p,
                      Candlestick.Init(snap.candleRows), s.priceCache)))
  {
    var s1 := s.(volume := Volume.Init(s.volume, snap.pools));
    var s2 := s1.(reserves := Reserves.Init(snap.reserveRows));
    assert Modules[1..] == [ReservesModule, TokenPricesModule, CandlestickModule];
    assert Modules[1..][1..] == [TokenPricesModule, CandlestickModule];
    assert Modules[1..][1..][1..] == [CandlestickModule];
    assert InitAll(Modules, s, snap) == InitAll(Modules[1..][1..], s2, snap);
    var p := TokenPrices.Init(s.prices, snap.priceRows, snap.poolReserveRows);
    if p.Ok? {
      var s3 := s2.(prices := p.value);
      assert InitAll(Modules[1..][1..], s2, snap) == InitAll(Modules[1..][1..][1..], s3, snap);
    }
  }

  // ---------------------------------------------------------------------
  // save
  // ---------------------------------------------------------------------

  function SaveModule(m: Module, s: State, h: Header, now: int, oracle: ReefPrice.Oracle): (r: Result<(State, Output)>)
    requires Valid(s)
    ensures r.Ok? ==> Valid(r.value.0)
  {
    match m
    case VolumeModule =>
      var v := Volume.Save(s.volume, h);
      Ok((s.(volume := v.0), Output(v.1, [], [], [])))
    case ReservesModule =>
      Ok((s, Output([], Reserves.Save(s.reserves, h), [], [])))
    case TokenPricesModule =>
      var g :- ReefPrice.GetPrice(s.priceCache, h.timestamp, now, oracle);
      var p := TokenPrices.Save(s.prices, g.0, h);
      Ok((s.(prices := p.0, priceCache := g.1), Output([], [], p.1, [])))
    case CandlestickModule =>
      var c := Candlestick.Save(s.candles, h);
      Ok((s.(candles := c.0), Output([], [], [], c.1)))
  }

  function SaveAll(ms: seq<Module>, s: State, h: Header, now: int, oracle: ReefPrice.Oracle): (r: Result<(State, Output)>)
    requires Valid(s)
    ensures r.Ok? ==> Valid(r.value.0)
    decreases |ms|
  {
    if |ms| == 0 then Ok((s, NoOutput))
    else
      var first :- SaveModule(ms[0], s, h, now, oracle);
      var rest :- SaveAll(ms[1..], first.0, h, now, oracle);
      Ok((rest.0, Concat(first.1, rest.1)))
  }

  /** The four flushes in module order, written out. */
  function Sequenced(s: State, h: Header, now: int, oracle: ReefPrice.Oracle): Result<(State, Output)>
    requires Valid(s)
  {
    var g := ReefPrice.GetPrice(s.priceCache, h.timestamp, now, oracle);
    if g.Err? then Err(g.error)
    else
      var v := Volume.Save(s.volume, h);
      var p := TokenPrices.Save(s.prices, g.value.0, h);
      var c := Candlestick.Save(s.candles, h);
      Ok((State(v.0, s.reserves, p.0, c.0, g.value.1), Output(v.1, Reserves.Save(s.reserves, h), p.1, c.1)))
  }

  /** The fold over the module list is the four flushes in order. */
  lemma SaveIsSequence(s: State, h: Header, now: int, oracle: ReefPrice.Oracle)
    requires Valid(s)
    ensures SaveAll(Modules, s, h, now, oracle) == Sequenced(s, h, now, oracle)
  {
    var v := Volume.Save(s.volume, h);
    SaveHead(s, h, now, oracle);
    SaveTail(s.(volume := v.0), h, now, oracle);
    if ReefPrice.GetPrice(s.priceCache, h.timestamp, now, oracle).Ok? {
      SaveIsSequenceOk(s, h, now, oracle);
    }
  }

  lemma SaveIsSequenceOk(s: State, h: Header, now: int, oracle: ReefPrice.Oracle)
    requires Valid(s)
    requires ReefPrice.GetPrice(s.priceCache, h.timestamp, now, oracle).Ok?
    ensures SaveAll(Modules, s, h, now, oracle) == Sequenced(s, h, now, oracle)
  {
    var v := Volume.Save(s.volume, h);
    var s1 := s.(volume := v.0);
    SaveHead(s, h, now, oracle);
    SaveTail(s1, h, now, oracle);
    var tail := SaveAll([ReservesModule, TokenPricesModule, CandlestickModule], s1, h, now, oracle);
    var g := ReefPrice.GetPrice(s.priceCache, h.timestamp, now, oracle).value;
    var p := TokenPrices.Save(s.prices, g.0, h);
    var c := Candlestick.Save(s.candles, h);
    var rr := Reserves.Save(s.reserves, h);
    assert tail.value.1 == Output([], rr, p.1, c.1);
    ConcatParts(v.1, rr, p.1, c.1);
    assert tail.value.0 == State(v.0, s.reserves, p.0, c.0, g.1);
  }

  /** The volume flush comes first, then the fold over the other three. */
  lemma SaveHead(s: State, h: Header, now: int, oracle: ReefPrice.Oracle)
    requires Valid(s)
    ensures var v := Volume.Save(s.volume, h);
            var tail := SaveAll([ReservesModule, TokenPricesModule, CandlestickModule], s.(volume := v.0), h, now, oracle);
            SaveAll(Modules, s, h, now, oracle)
              == if tail.Err? then Err(tail.error) else Ok((tail.value.0, Concat(Output(v.1, [], [], []), tail.value.1)))
  {
    var v := Volume.Save(s.volume, h);
    assert SaveModule(VolumeModule, s, h, now, oracle) == Ok((s.(volume := v.0), Output(v.1, [], [], [])));
    assert Modules[1..] == [ReservesModule, TokenPricesModule, CandlestickModule];
  }

  /** Outputs of different modules concatenate into their union. */
  lemma ConcatParts(v: seq<Volume.Row>, r: seq<Reserves.Row>, p: seq<TokenPrices.Row>, c: seq<Candlestick.Row>)
    ensures Concat(Output(v, [], [], []), Output([], r, p, c)) == Output(v, r, p, c)
    ensures Concat(Output([], r, [], []), Output([], [], p, c)) == Output([], r, p, c)
    ensures Concat(Output([], [], p, []), Output([], [], [], c)) == Output([], [], p, c)
    ensures Concat(Output([], [], [], c), NoOutput) == Output([], [], [], c)
  {
    assert v + [] == v && [] + r == r && [] + p == p && [] + c == c && c + [] == c;
  }

  /** The last three flushes, from the state the volume flush leaves. */
  lemma SaveTail(s: State, h: Header, now: int, oracle: ReefPrice.Oracle)
    requires Valid(s)
    ensures var g := ReefPrice.GetPrice(s.priceCache, h.timestamp, now, oracle);
            var r := SaveAll([ReservesModule, TokenPricesModule, CandlestickModule], s, h, now, oracle);
            && (r.Err? <==> g.Err?)
            && (g.Ok? ==>
                  var p := TokenPrices.Save(s.prices, g.value.0, h);
                  var c := Candlestick.Save(s.candles, h);
                  r.value == (s.(prices := p.0, priceCache := g.value.1, candles := c.0),
                              Output([], Reserves.Save(s.reserves, h), p.1, c.1)))
  {
    var ms := [ReservesModule, TokenPricesModule, CandlestickModule];
    assert ms[0] == ReservesModule && ms[1..] == [TokenPricesModule, CandlestickModule];
    SavePricesThenCandles(s, h, now, oracle);
    var g := ReefPrice.GetPrice(s.priceCache, h.timestamp, now, oracle);
    if g.Ok? {
      var p := TokenPrices.Save(s.prices, g.value.0, h);
      var c := Candlestick.Save(s.candles, h);
      ConcatParts([], Reserves.Save(s.reserves, h), p.1, c.1);
    }
  }

  /** The price flush, then the candle flush. */
  lemma SavePricesThenCandles(s: State, h: Header, now: int, oracle: ReefPrice.Oracle)
    requires Valid(s)
    ensures var g := ReefPrice.GetPrice(s.priceCache, h.timestamp, now, oracle);
            var r := SaveAll([TokenPricesModule, CandlestickModule], s, h, now, oracle);
            && (r.Err? <==> g.Err?)
            && (g.Ok? ==>
                  var p := TokenPrices.Save(s.prices, g.value.0, h);
                  var c := Candlestick.Save(s.candles, h);
                  r.value == (s.(prices := p.0, priceCache := g.value.1, candles := c.0), Output([], [], p.1, c.1)))
  {
    var ms := [TokenPricesModule, CandlestickModule];
    assert ms[0] == TokenPricesModule && ms[1..] == [CandlestickModule];
    var g := ReefPrice.GetPrice(s.priceCache, h.timestamp, now, oracle);
    if g.Ok? {
      var p := TokenPrices.Save(s.prices, g.value.0, h);
      var s3 := s.(prices := p.0, priceCache := g.value.1);
      var c := Candlestick.Save(s.candles, h);
      ConcatParts([], [], p.1, c.1);
      SaveCandlesOnly(s3, h, now, oracle);
    }
  }

  /** The candle flush alone. */
  lemma SaveCandlesOnly(s: State, h: Header, now: int, oracle: ReefPrice.Oracle)
    requires Valid(s)
    ensures var c := Candlestick.Save(s.candles, h);
            SaveAll([CandlestickModule], s, h, now, oracle) == Ok((s.(candles := c.0), Output([], [], [], c.1)))
  {
    var ms := [CandlestickModule];
    assert ms[0] == CandlestickModule && ms[1..] == [];
    ConcatParts([], [], [], Candlestick.Save(s.candles, h).1);
  }

  /** `save`: every module's `save`, once each, in module order, with the same
      block. Only the REEF price lookup can fail. */
  function Save(s: State, h: Header, now: int, oracle: ReefPrice.Oracle): (r: Result<(State, Output)>)
    requires Valid(s)
    ensures r.Err? <==> ReefPrice.GetPrice(s.priceCache, h.timestamp, now, oracle).Err?
    ensures r.Ok? ==>
      var (s', out) := r.value;
      && Valid(s')
      && s'.volume == Volume.State(s.volume.pools, map[])
      && s'.reserves == s.reserves
      && s'.candles.keys == s.candles.keys && Candlestick.AllWellFormed(s'.candles)
      && s'.prices.skip && s'.prices.tokens == s.prices.tokens
      && |out.volume| == |s.volume.pools| && |out.reserves| == |s.reserves.pools|
      && |out.prices| == |s.prices.tokens| && |out.candles| == |s.candles.keys|
  {
    SaveIsSequence(s, h, now, oracle);
    SaveAll(Modules, s, h, now, oracle)
  }
}
