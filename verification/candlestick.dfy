/** The per-block OHLC accumulator (`Candlestick` history module), keyed by
    `${poolId}:${token}` and kept in key-insertion order as a JavaScript object
    keeps its (non-numeric) keys. */
module Candlestick {
  import opened Common

  datatype Ohlc = Ohlc(open: real, high: real, low: real, close: real)

  datatype State = State(keys: seq<string>, candles: map<string, Ohlc>)

  /** A stored `Candlestick` row read back when the module starts. */
  datatype StoredRow = StoredRow(pool: string, token: string, close: real)

  /** One `Candlestick` row written by `save`. */
  datatype Row = Row(id: string, blockId: string, pool: string, token: string,
                     open: real, high: real, low: real, close: real, timestamp: int)

  const Empty := State([], map[])

  const Separator := ':'

  ghost predicate Valid(s: State) {
    && NoDuplicates(s.keys)
    && (forall k :: k in s.candles <==> k in s.keys)
  }

  /** The price range brackets both the open and the close. */
  predicate WellFormed(c: Ohlc) {
    c.low <= c.open <= c.high && c.low <= c.close <= c.high
  }

  ghost predicate AllWellFormed(s: State) {
    forall k :: k in s.candles ==> WellFormed(s.candles[k])
  }

  /** A candle whose four prices are all `p`. */
  function Flat(p: real): (c: Ohlc)
    ensures WellFormed(c)
  {
    Ohlc(p, p, p, p)
  }

  function Key(pool: string, token: string): string {
    pool + [Separator] + token
  }

  function Max(a: real, b: real): real {
    if a > b then a else b
  }

  function Min(a: real, b: real): real {
    if a < b then a else b
  }

  /** `updateCandlestick`: the first price of a key opens a flat candle;
      later prices keep the open, widen high and low, and become the close. */
  function Update(s: State, pool: string, token: string, price: real): (r: State)
    requires Valid(s)
    ensures Valid(r)
    ensures Key(pool, token) in s.candles ==> r.keys == s.keys
    ensures Key(pool, token) !in s.candles ==> r.keys == s.keys + [Key(pool, token)]
    ensures Key(pool, token) !in s.candles ==> r.candles[Key(pool, token)] == Flat(price)
    ensures Key(pool, token) in s.candles ==>
      var old_ := s.candles[Key(pool, token)];
      var new_ := r.candles[Key(pool, token)];
      && new_.open == old_.open
      && new_.close == price
      && new_.high >= old_.high && new_.high >= price && (new_.high == old_.high || new_.high == price)
      && new_.low <= old_.low && new_.low <= price && (new_.low == old_.low || new_.low == price)
    ensures forall k :: k in s.candles && k != Key(pool, token) ==> r.candles[k] == s.candles[k]
    ensures AllWellFormed(s) ==> AllWellFormed(r)
  {
    var key := Key(pool, token);
    if key !in s.candles then
      State(s.keys + [key], s.candles[key := Flat(price)])
    else
      var c := s.candles[key];
      State(s.keys, s.candles[key := Ohlc(c.open, Max(c.high, price), Min(c.low, price), price)])
  }

  /** `prepareCandlestickForNextBlock`: every key keeps its place and restarts
      as a flat candle at its close. */
  function RollForward(s: State): (r: State)
    requires Valid(s)
    ensures Valid(r)
    ensures r.keys == s.keys
    ensures forall k :: k in s.candles ==> r.candles[k] == Flat(s.candles[k].close)
    ensures AllWellFormed(r)
  {
    State(s.keys, map k | k in s.candles :: Flat(s.candles[k].close))
  }

  /** The pool and token a key is split back into by `key.split(':')`;
      a missing second part reads as `undefined`. */
  function KeyParts(key: string): (string, string) {
    var parts := Split(key, Separator);
    (parts[0], if |parts| >= 2 then parts[1] else "undefined")
  }

  /** Splitting a key gives back its pool and token when neither contains the
      separator. */
  lemma KeyPartsOfKey(pool: string, token: string)
    requires Separator !in pool && Separator !in token
    ensures KeyParts(Key(pool, token)) == (pool, token)
  {
    assert Key(pool, token) == Join([pool, token], Separator);
    SplitJoin([pool, token], Separator);
  }

  /** A pool id with the separator in it is cut short by the split. */
  lemma KeyPartsOfColonPool()
    ensures KeyParts(Key("a:b", "t")) == ("a", "b")
  {
    assert Key("a:b", "t") == Join(["a", "b", "t"], Separator);
    SplitJoin(["a", "b", "t"], Separator);
  }

  /** The row `save` writes for one key. */
  function RowFor(key: string, c: Ohlc, h: Header): Row {
    var (pool, token) := KeyParts(key);
    Row(BlockKeyId(h.height, pool + "-" + token), h.id, pool, token, c.open, c.high, c.low, c.close, h.timestamp)
  }

  /** `save`: one row for every key currently held, in key order, including
      keys carried over from earlier blocks and not updated in this one; then
      every key rolls forward to a flat candle at its close. */
  function Save(s: State, h: Header): (r: (State, seq<Row>))
    requires Valid(s)
    ensures Valid(r.0) && AllWellFormed(r.0)
    ensures r.0.keys == s.keys
    ensures forall k :: k in s.candles ==> r.0.candles[k] == Flat(s.candles[k].close)
    ensures |r.1| == |s.keys|
    ensures forall i :: 0 <= i < |r.1| ==>
      var c := s.candles[s.keys[i]];
      && (r.1[i].pool, r.1[i].token) == KeyParts(s.keys[i])
      && r.1[i].id == BlockKeyId(h.height, r.1[i].pool + "-" + r.1[i].token)
      && r.1[i].blockId == h.id && r.1[i].timestamp == h.timestamp
      && r.1[i].open == c.open && r.1[i].high == c.high && r.1[i].low == c.low && r.1[i].close == c.close
  {
    var rows := seq(|s.keys|, i requires 0 <= i < |s.keys| => RowFor(s.keys[i], s.candles[s.keys[i]], h));
    (RollForward(s), rows)
  }

  /** Seeds one stored row: its key becomes a flat candle at the stored close. */
  function Seed(s: State, row: StoredRow): (r: State)
    requires Valid(s)
    ensures Valid(r)
    ensures r.candles == s.candles[Key(row.pool, row.token) := Flat(row.close)]
  {
    var key := Key(row.pool, row.token);
    if key in s.candles then State(s.keys, s.candles[key := Flat(row.close)])
    else State(s.keys + [key], s.candles[key := Flat(row.close)])
  }

  function SeedAll(s: State, rows: seq<StoredRow>): (r: State)
    requires Valid(s)
    ensures Valid(r)
    decreases |rows|
  {
    if |rows| == 0 then s else SeedAll(Seed(s, rows[0]), rows[1..])
  }

  /** `init`: the accumulator becomes one flat candle per stored row, at that
      row's close (a later row for the same key wins). */
  function Init(rows: seq<StoredRow>): (r: State)
    ensures Valid(r)
    ensures AllFlat(r) && AllWellFormed(r)
  {
    SeedAllFlat(Empty, rows);
    FlatIsWellFormed(SeedAll(Empty, rows));
    SeedAll(Empty, rows)
  }

  /** Every candle has open = high = low = close. */
  ghost predicate AllFlat(s: State) {
    forall k :: k in s.candles ==> s.candles[k] == Flat(s.candles[k].close)
  }

  /** Seeding only ever produces flat candles. */
  lemma {:induction false} SeedAllFlat(s: State, rows: seq<StoredRow>)
    requires Valid(s) && AllFlat(s)
    ensures AllFlat(SeedAll(s, rows))
    decreases |rows|
  {
    if |rows| > 0 {
      var s' := Seed(s, rows[0]);
      forall k | k in s'.candles
        ensures s'.candles[k] == Flat(s'.candles[k].close)
      {
        if k != Key(rows[0].pool, rows[0].token) {
          assert s'.candles[k] == s.candles[k];
        }
      }
      SeedAllFlat(s', rows[1..]);
    }
  }

  /** A state of flat candles is well formed. */
  lemma FlatIsWellFormed(s: State)
    requires AllFlat(s)
    ensures AllWellFormed(s)
  {
    forall k | k in s.candles
      ensures WellFormed(s.candles[k])
    {
      assert s.candles[k] == Flat(s.candles[k].close);
    }
  }

  /** Two tokens of one pool have different keys. */
  lemma KeysOfOnePoolDiffer(pool: string, t1: string, t2: string)
    requires t1 != t2
    ensures Key(pool, t1) != Key(pool, t2)
  {
    assert Key(pool, t1)[|pool| + 1..] == t1;
    assert Key(pool, t2)[|pool| + 1..] == t2;
  }

  /** Updating the candles of two tokens of one pool closes each at its own
      price; two new keys are appended in update order. */
  lemma UpdateTwo(s: State, pool: string, t1: string, p1: real, t2: string, p2: real)
    requires Valid(s) && t1 != t2
    ensures var c := Update(Update(s, pool, t1, p1), pool, t2, p2);
            var k1, k2 := Key(pool, t1), Key(pool, t2);
            && c.candles[k1].close == p1 && c.candles[k2].close == p2
            && (k1 !in s.candles && k2 !in s.candles ==> c.keys == s.keys + [k1, k2])
  {
    KeysOfOnePoolDiffer(pool, t1, t2);
    var c1 := Update(s, pool, t1, p1);
    assert Key(pool, t1) in c1.candles;
  }

  /** After a flush, the next price of a key opens its candle at the close
      just saved, and the candle then runs from that close to the new price. */
  lemma NextBlockOpensAtPreviousClose(s: State, h: Header, pool: string, token: string, p: real)
    requires Valid(s) && Key(pool, token) in s.candles
    ensures var c := s.candles[Key(pool, token)];
            var n := Update(Save(s, h).0, pool, token, p).candles[Key(pool, token)];
            && n.open == c.close && n.close == p
            && n.high == Max(c.close, p) && n.low == Min(c.close, p)
  {
    var s0 := Save(s, h).0;
    assert s0.candles[Key(pool, token)] == Flat(s.candles[Key(pool, token)].close);
  }

  /** The close of the last stored row for `key`, if any. */
  function LastClose(rows: seq<StoredRow>, key: string): Option<real>
    decreases |rows|
  {
    if |rows| == 0 then None
    else
      var rest := LastClose(rows[1..], key);
      if rest.Some? then rest
      else if Key(rows[0].pool, rows[0].token) == key then Some(rows[0].close)
      else None
  }

  lemma {:induction false} SeedAllLastWrite(s: State, rows: seq<StoredRow>, key: string)
    requires Valid(s)
    ensures var r := SeedAll(s, rows);
            && (key in r.candles <==> key in s.candles || LastClose(rows, key).Some?)
            && (LastClose(rows, key).Some? ==> r.candles[key] == Flat(LastClose(rows, key).value))
            && (LastClose(rows, key).None? && key in s.candles ==> r.candles[key] == s.candles[key])
    decreases |rows|
  {
    if |rows| > 0 {
      SeedAllLastWrite(Seed(s, rows[0]), rows[1..], key);
    }
  }

  /** After `init` a key holds a candle exactly when a stored row names it,
      and the candle is flat at the close of the last such row. */
  lemma InitIsLastClose(rows: seq<StoredRow>, key: string)
    ensures key in Init(rows).candles <==> LastClose(rows, key).Some?
    ensures LastClose(rows, key).Some? ==> Init(rows).candles[key] == Flat(LastClose(rows, key).value)
  {
    SeedAllLastWrite(Empty, rows, key);
  }
}
