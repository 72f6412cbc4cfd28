/** The token-price estimator (`TokenPrices` history module): a token list, a
    price vector and a square matrix of reserve ratios, from which every
    token's price is estimated as its ratio to REEF times the REEF price. */
module TokenPrices {
  import opened Common

  /** `REEF_CONTRACT_ADDRESS`. */
  const ReefAddress := "0x0000000000000000000000000000000001000000"

  /** `skip` suppresses re-estimation until a REEF pool's reserves change or
      the REEF price moves. */
  datatype State = State(skip: bool, tokens: seq<string>, prices: seq<real>, matrix: seq<seq<real>>)

  /** A stored `TokenPrice` row read back by `init`. */
  datatype PriceRow = PriceRow(token: string, price: real)

  /** A stored `ReservedRaw` row with its pool's tokens and decimals. */
  datatype ReserveRow = ReserveRow(token1: string, token2: string, reserved1: int, reserved2: int,
                                   decimal1: nat, decimal2: nat)

  /** One `TokenPrice` row written by `save`. */
  datatype Row = Row(id: string, blockHeight: nat, token: string, price: real, timestamp: int)

  /** The vector has one price per token, the matrix is n by n, and no token
      is listed twice. */
  ghost predicate Valid(s: State) {
    && |s.prices| == |s.tokens|
    && |s.matrix| == |s.tokens|
    && (forall i :: 0 <= i < |s.matrix| ==> |s.matrix[i]| == |s.tokens|)
    && NoDuplicates(s.tokens)
  }

  // ---------------------------------------------------------------------
  // dot and estimateTokenPriceBasedOnReefPrice
  // ---------------------------------------------------------------------

  /** `row.reduce((acc, x, k) => acc + x * vector[k], 0)`, a left fold. */
  function RowDot(row: seq<real>, v: seq<real>): real
    requires |row| <= |v|
  {
    if |row| == 0 then 0.0
    else RowDot(row[..|row| - 1], v) + row[|row| - 1] * v[|row| - 1]
  }

  /** `dot(matrix, vector)`: one entry per matrix row. */
  function Dot(m: seq<seq<real>>, v: seq<real>): (r: seq<real>)
    requires forall i :: 0 <= i < |m| ==> |m[i]| <= |v|
    ensures |r| == |m|
    ensures forall i :: 0 <= i < |m| ==> r[i] == RowDot(m[i], v)
  {
    seq(|m|, i requires 0 <= i < |m| => RowDot(m[i], v))
  }

  /** The vector that is `p` at position `k` and zero elsewhere. */
  function Unit(n: nat, k: nat, p: real): (v: seq<real>)
    ensures |v| == n
  {
    seq(n, i requires 0 <= i < n => if i == k then p else 0.0)
  }

  /** Against a vector that is zero outside position `k`, a row's dot product
      picks out its `k`-th entry. */
  lemma {:induction false} RowDotUnit(row: seq<real>, n: nat, k: nat, p: real)
    requires |row| <= n
    ensures RowDot(row, Unit(n, k, p)) == if k < |row| then row[k] * p else 0.0
    decreases |row|
  {
    if |row| > 0 {
      var init := row[..|row| - 1];
      RowDotUnit(init, n, k, p);
      if k < |init| {
        assert init[k] == row[k];
      }
    }
  }

  /** `estimateTokenPriceBasedOnReefPrice`: the REEF slot carries the REEF
      price and every other token is its ratio to REEF times that price. */
  function Estimate(m: seq<seq<real>>, reefPrice: real, reefIndex: nat): (r: seq<real>)
    requires forall i :: 0 <= i < |m| ==> |m[i]| == |m|
    ensures |r| == |m|
    ensures reefIndex < |m| ==> r[reefIndex] == reefPrice
    ensures forall i :: 0 <= i < |m| && i != reefIndex ==>
              r[i] == (if reefIndex < |m| then m[i][reefIndex] * reefPrice else 0.0)
  {
    var d := Dot(m, Unit(|m|, reefIndex, reefPrice));
    forall i | 0 <= i < |m|
      ensures d[i] == if reefIndex < |m| then m[i][reefIndex] * reefPrice else 0.0
    {
      RowDotUnit(m[i], |m|, reefIndex, reefPrice);
    }
    seq(|d|, i requires 0 <= i < |d| => if i == reefIndex then reefPrice else d[i])
  }

  // ---------------------------------------------------------------------
  // addToken, updateReserves, estimatePrice
  // ---------------------------------------------------------------------

  /** `addToken`: a token already listed changes nothing; a new token is
      appended with its price, and the matrix grows by a zero row and a zero
      column. */
  function AddToken(s: State, token: string, price: real): (r: State)
    requires Valid(s)
    ensures Valid(r)
    ensures token in s.tokens ==> r == s
    ensures token !in s.tokens ==>
      && r.skip == s.skip
      && r.tokens == s.tokens + [token]
      && r.prices == s.prices + [price]
      && |r.matrix| == |s.matrix| + 1
      && (forall i, j :: 0 <= i < |s.matrix| && 0 <= j < |s.matrix| ==> r.matrix[i][j] == s.matrix[i][j])
      && (forall k :: 0 <= k <= |s.matrix| ==> r.matrix[|s.matrix|][k] == 0.0 && r.matrix[k][|s.matrix|] == 0.0)
  {
    if token in s.tokens then s
    else
      var n := |s.tokens|;
      var m := seq(n + 1, i requires 0 <= i <= n => if i < n then s.matrix[i] + [0.0] else seq(n + 1, _ => 0.0));
      State(s.skip, s.tokens + [token], s.prices + [price], m)
  }

  /** `addPool`: both tokens of a pool are added at price 0. */
  function AddPool(s: State, token1: string, token2: string): (r: State)
    requires Valid(s)
    ensures Valid(r)
    ensures token1 in r.tokens && token2 in r.tokens
    ensures s.tokens <= r.tokens && |r.tokens| <= |s.tokens| + 2
  {
    AddToken(AddToken(s, token1, 0.0), token2, 0.0)
  }

  /** Whether a pool involves REEF. */
  predicate TouchesReef(token1: string, token2: string) {
    token1 == ReefAddress || token2 == ReefAddress
  }

  /** `updateReserves`: both tokens must be listed (otherwise `Token not
      found`); the two mirrored ratio entries are written, the second write
      winning when the tokens coincide, and `skip` is cleared only for a pool
      that involves REEF. */
  function UpdateReserves(s: State, token1: string, token2: string, reserve1: real, reserve2: real): (r: Result<State>)
    requires Valid(s)
    requires reserve1 != 0.0 && reserve2 != 0.0
    ensures r.Err? <==> token1 !in s.tokens || token2 !in s.tokens
    ensures r.Err? ==> r.error == "Token not found"
    ensures r.Ok? ==>
      var i, j := IndexOf(s.tokens, token1), IndexOf(s.tokens, token2);
      && Valid(r.value)
      && r.value.tokens == s.tokens && r.value.prices == s.prices
      && r.value.matrix[j][i] == reserve2 / reserve1
      && (i != j ==> r.value.matrix[i][j] == reserve1 / reserve2)
      && (forall a, b :: 0 <= a < |s.matrix| && 0 <= b < |s.matrix| && (a, b) != (i, j) && (a, b) != (j, i)
            ==> r.value.matrix[a][b] == s.matrix[a][b])
      && r.value.skip == (s.skip && !TouchesReef(token1, token2))
  {
    var i := IndexOf(s.tokens, token1);
    var j := IndexOf(s.tokens, token2);
    if i == -1 || j == -1 then Err("Token not found")
    else
      var m1 := SetEntry(s.matrix, i, j, reserve1 / reserve2);
      var m2 := SetEntry(m1, j, i, reserve2 / reserve1);
      Ok(State(if TouchesReef(token1, token2) then false else s.skip, s.tokens, s.prices, m2))
  }

  /** The matrix with the one entry (i, j) replaced by `v`. */
  function SetEntry(m: seq<seq<real>>, i: nat, j: nat, v: real): (r: seq<seq<real>>)
    requires i < |m| && j < |m[i]|
    ensures |r| == |m| && forall a :: 0 <= a < |m| ==> |r[a]| == |m[a]|
    ensures r[i][j] == v
    ensures forall a, b :: 0 <= a < |m| && 0 <= b < |m[a]| && (a, b) != (i, j) ==> r[a][b] == m[a][b]
  {
    m[i := m[i][j := v]]
  }

  /** The position of REEF in the token list. */
  function ReefIndex(s: State): (k: nat)
    requires ReefAddress in s.tokens
    ensures k < |s.tokens| && s.tokens[k] == ReefAddress
  {
    IndexOf(s.tokens, ReefAddress)
  }

  /** `estimatePrice`: the fetched REEF price is written into its slot; all
      prices are re-estimated when `skip` is clear or the REEF price differs
      from the one held; `skip` is set afterwards. */
  function EstimatePrice(s: State, reefPrice: real): (r: State)
    requires Valid(s) && ReefAddress in s.tokens
    ensures Valid(r) && ReefAddress in r.tokens
    ensures r.skip
    ensures r.tokens == s.tokens && r.matrix == s.matrix
    ensures r.prices[ReefIndex(s)] == reefPrice
    ensures !s.skip || s.prices[ReefIndex(s)] != reefPrice ==>
      forall i :: 0 <= i < |s.tokens| && i != ReefIndex(s) ==> r.prices[i] == s.matrix[i][ReefIndex(s)] * reefPrice
    ensures s.skip && s.prices[ReefIndex(s)] == reefPrice ==> r.prices == s.prices
  {
    var k := ReefIndex(s);
    var current := s.prices[k];
    var prices := s.prices[k := reefPrice];
    var prices' := if !s.skip || current != reefPrice then Estimate(s.matrix, prices[k], k) else prices;
    State(true, s.tokens, prices', s.matrix)
  }

  /** Estimating twice with the same REEF price is the same as estimating once. */
  lemma EstimatePriceIdempotent(s: State, reefPrice: real)
    requires Valid(s) && ReefAddress in s.tokens
    ensures EstimatePrice(EstimatePrice(s, reefPrice), reefPrice) == EstimatePrice(s, reefPrice)
  {
  }

  /** A pool update that does not involve REEF, once prices are estimated, does
      not trigger a re-estimation at an unchanged REEF price. */
  lemma NonReefUpdateIsSkipped(s: State, token1: string, token2: string, r1: real, r2: real, reefPrice: real)
    requires Valid(s) && ReefAddress in s.tokens
    requires r1 != 0.0 && r2 != 0.0
    requires token1 in s.tokens && token2 in s.tokens && !TouchesReef(token1, token2)
    ensures var e := EstimatePrice(s, reefPrice);
            var u := UpdateReserves(e, token1, token2, r1, r2).value;
            EstimatePrice(u, reefPrice).prices == e.prices
  {
  }

  // ---------------------------------------------------------------------
  // insertPrices, save, init
  // ---------------------------------------------------------------------

  /** The id of a price row: the height padded to nine digits, then the token. */
  function PriceId(height: nat, token: string): string {
    PadStart(NatToString(height), 9, '0') + "-" + token
  }

  lemma PriceIdInjective(height: nat, a: string, b: string)
    requires PriceId(height, a) == PriceId(height, b)
    ensures a == b
  {
    var n := |PadStart(NatToString(height), 9, '0')| + 1;
    assert a == PriceId(height, a)[n..];
    assert b == PriceId(height, b)[n..];
  }

  /** `insertPrices`: one row per token, in list order, with its price. */
  function InsertPrices(s: State, h: Header): (rows: seq<Row>)
    requires Valid(s)
    ensures |rows| == |s.tokens|
    ensures forall i :: 0 <= i < |rows| ==>
      && rows[i].token == s.tokens[i]
      && rows[i].price == s.prices[i]
      && rows[i].id == PriceId(h.height, s.tokens[i])
      && rows[i].blockHeight == h.height
      && rows[i].timestamp == h.timestamp
  {
    seq(|s.tokens|, i requires 0 <= i < |s.tokens| =>
      Row(PriceId(h.height, s.tokens[i]), h.height, s.tokens[i], s.prices[i], h.timestamp))
  }

  /** No two rows of one flush share an id. */
  lemma InsertPricesIdsDistinct(s: State, h: Header)
    requires Valid(s)
    ensures forall i, j :: 0 <= i < j < |InsertPrices(s, h)| ==> InsertPrices(s, h)[i].id != InsertPrices(s, h)[j].id
  {
    var rows := InsertPrices(s, h);
    forall i, j | 0 <= i < j < |rows|
      ensures rows[i].id != rows[j].id
    {
      if rows[i].id == rows[j].id {
        PriceIdInjective(h.height, s.tokens[i], s.tokens[j]);
      }
    }
  }

  /** `save`: estimate with the REEF price for the block's time, then write
      the price vector. */
  function Save(s: State, reefPrice: real, h: Header): (r: (State, seq<Row>))
    requires Valid(s) && ReefAddress in s.tokens
    ensures Valid(r.0) && ReefAddress in r.0.tokens
    ensures r.0.skip && r.0.tokens == s.tokens && r.0.matrix == s.matrix
    ensures |r.1| == |s.tokens|
    ensures r.1[ReefIndex(s)].token == ReefAddress && r.1[ReefIndex(s)].price == reefPrice
    ensures forall i :: 0 <= i < |r.1| ==>
      && r.1[i].token == s.tokens[i] && r.1[i].price == r.0.prices[i]
      && r.1[i].id == PriceId(h.height, s.tokens[i]) && r.1[i].blockHeight == h.height
    ensures !s.skip || s.prices[ReefIndex(s)] != reefPrice ==>
      forall i :: 0 <= i < |r.1| && i != ReefIndex(s) ==> r.1[i].price == s.matrix[i][ReefIndex(s)] * reefPrice
    ensures s.skip && s.prices[ReefIndex(s)] == reefPrice ==>
      forall i :: 0 <= i < |r.1| ==> r.1[i].price == s.prices[i]
  {
    var s' := EstimatePrice(s, reefPrice);
    var rows := InsertPrices(s', h);
    SavedPrices(s, reefPrice, s', rows);
    (s', rows)
  }

  /** The prices a flush writes, in terms of the state before estimation. */
  lemma SavedPrices(s: State, reefPrice: real, s': State, rows: seq<Row>)
    requires Valid(s) && ReefAddress in s.tokens
    requires s' == EstimatePrice(s, reefPrice)
    requires |rows| == |s.tokens| && forall i :: 0 <= i < |rows| ==> rows[i].price == s'.prices[i]
    ensures !s.skip || s.prices[ReefIndex(s)] != reefPrice ==>
      forall i :: 0 <= i < |rows| && i != ReefIndex(s) ==> rows[i].price == s.matrix[i][ReefIndex(s)] * reefPrice
    ensures s.skip && s.prices[ReefIndex(s)] == reefPrice ==>
      forall i :: 0 <= i < |rows| ==> rows[i].price == s.prices[i]
  {
  }

  /** Whether some stored price row is for `token`. */
  ghost predicate Listed(rows: seq<PriceRow>, token: string) {
    exists k :: 0 <= k < |rows| && rows[k].token == token
  }

  /** Adds the token of every stored price row, at its stored price. */
  function AddAll(s: State, rows: seq<PriceRow>): (r: State)
    requires Valid(s)
    ensures Valid(r)
    ensures forall t :: t in r.tokens <==> t in s.tokens || Listed(rows, t)
    ensures r.skip == s.skip
    decreases |rows|
  {
    if |rows| == 0 then s
    else
      var r := AddAll(AddToken(s, rows[0].token, rows[0].price), rows[1..]);
      assert forall t :: Listed(rows, t) <==> t == rows[0].token || Listed(rows[1..], t)
      by {
        forall t | Listed(rows, t)
          ensures t == rows[0].token || Listed(rows[1..], t)
        {
          var k :| 0 <= k < |rows| && rows[k].token == t;
          if k > 0 { assert rows[1..][k - 1].token == t; }
        }
      }
      r
  }

  /** Every reserve row's tokens are listed. */
  ghost predicate Covered(s: State, rows: seq<ReserveRow>) {
    forall k :: 0 <= k < |rows| ==> rows[k].token1 in s.tokens && rows[k].token2 in s.tokens
  }

  predicate NonZero(rows: seq<ReserveRow>) {
    forall k :: 0 <= k < |rows| ==> rows[k].reserved1 != 0 && rows[k].reserved2 != 0
  }

  /** The reserve replay of `init`: each row's reserves, scaled by its pool's
      decimals, go through `updateReserves`, stopping at the first that throws. */
  function UpdateAll(s: State, rows: seq<ReserveRow>): (r: Result<State>)
    requires Valid(s) && NonZero(rows)
    ensures r.Err? <==> !Covered(s, rows)
    ensures r.Err? ==> r.error == "Token not found"
    ensures r.Ok? ==> Valid(r.value) && r.value.tokens == s.tokens && r.value.prices == s.prices
    decreases |rows|
  {
    if |rows| == 0 then Ok(s)
    else
      var row := rows[0];
      NonZeroTail(rows);
      assert Scaled(row.reserved1, row.decimal1) != 0.0 && Scaled(row.reserved2, row.decimal2) != 0.0;
      var s' :- UpdateReserves(s, row.token1, row.token2, Scaled(row.reserved1, row.decimal1), Scaled(row.reserved2, row.decimal2));
      var r := UpdateAll(s', rows[1..]);
      CoveredTail(s, s', rows);
      r
  }

  lemma NonZeroTail(rows: seq<ReserveRow>)
    requires |rows| > 0 && NonZero(rows)
    ensures rows[0].reserved1 != 0 && rows[0].reserved2 != 0
    ensures NonZero(rows[1..])
  {
    forall k | 0 <= k < |rows[1..]| ensures rows[1..][k].reserved1 != 0 && rows[1..][k].reserved2 != 0 {
      assert rows[1..][k] == rows[k + 1];
    }
  }

  /** The rows are covered exactly when the first row's tokens are and the
      rest are covered by a state with the same tokens. */
  lemma CoveredTail(s: State, s': State, rows: seq<ReserveRow>)
    requires |rows| > 0 && s'.tokens == s.tokens
    requires rows[0].token1 in s.tokens && rows[0].token2 in s.tokens
    ensures Covered(s, rows) <==> Covered(s', rows[1..])
  {
    if Covered(s', rows[1..]) {
      forall k | 0 <= k < |rows|
        ensures rows[k].token1 in s.tokens && rows[k].token2 in s.tokens
      {
        if k > 0 { assert rows[k] == rows[1..][k - 1]; }
      }
    }
  }

  /** `init`: the three collections are emptied (`skip` is kept); every stored
      price row adds its token at its price, every stored reserve row updates
      the ratios, and REEF is added at price 0 when still absent. It throws
      exactly when a reserve row names a token without a stored price. */
  function Init(s: State, priceRows: seq<PriceRow>, reserveRows: seq<ReserveRow>): (r: Result<State>)
    requires NonZero(reserveRows)
    ensures r.Err? <==> exists k :: 0 <= k < |reserveRows| &&
                          (!Listed(priceRows, reserveRows[k].token1) || !Listed(priceRows, reserveRows[k].token2))
    ensures r.Err? ==> r.error == "Token not found"
    ensures r.Ok? ==> Valid(r.value) && ReefAddress in r.value.tokens
  {
    var s1 := AddAll(State(s.skip, [], [], []), priceRows);
    var s2 :- UpdateAll(s1, reserveRows);
    Ok(if ReefAddress in s2.tokens then s2 else AddToken(s2, ReefAddress, 0.0))
  }

  // ---------------------------------------------------------------------
  // What init loads
  // ---------------------------------------------------------------------

  /** The price of the first stored row for `token`: `addToken` ignores every
      later row for a token it already holds. */
  function FirstPrice(rows: seq<PriceRow>, token: string): Option<real> {
    if |rows| == 0 then None
    else if rows[0].token == token then Some(rows[0].price)
    else FirstPrice(rows[1..], token)
  }

  /** Loading price rows keeps the earlier tokens and prices as prefixes and
      gives each newly listed token the price of the first row naming it. */
  lemma {:induction false} AddAllPrices(s: State, rows: seq<PriceRow>)
    requires Valid(s)
    ensures var r := AddAll(s, rows);
            && s.tokens <= r.tokens && s.prices <= r.prices
            && forall i :: |s.tokens| <= i < |r.tokens| ==> FirstPrice(rows, r.tokens[i]) == Some(r.prices[i])
    decreases |rows|
  {
    if |rows| > 0 {
      var s1 := AddToken(s, rows[0].token, rows[0].price);
      var r := AddAll(s, rows);
      assert r == AddAll(s1, rows[1..]);
      AddAllPrices(s1, rows[1..]);
      forall i | |s.tokens| <= i < |r.tokens|
        ensures FirstPrice(rows, r.tokens[i]) == Some(r.prices[i])
      {
        if i < |s1.tokens| {
          assert r.tokens[i] == s1.tokens[i] == rows[0].token;
          assert r.prices[i] == s1.prices[i] == rows[0].price;
        } else {
          var k := IndexOf(s1.tokens, rows[0].token);
          assert r.tokens[k] == s1.tokens[k];
          assert r.tokens[i] != rows[0].token;
        }
      }
    }
  }

  /** Every ratio is zero. */
  ghost predicate ZeroMatrix(s: State) {
    forall i, j :: 0 <= i < |s.matrix| && 0 <= j < |s.matrix[i]| ==> s.matrix[i][j] == 0.0
  }

  lemma AddTokenZero(s: State, token: string, price: real)
    requires Valid(s) && ZeroMatrix(s)
    ensures ZeroMatrix(AddToken(s, token, price))
  {
    var r := AddToken(s, token, price);
    var n := |s.matrix|;
    if token !in s.tokens {
      forall i, j | 0 <= i < |r.matrix| && 0 <= j < |r.matrix[i]|
        ensures r.matrix[i][j] == 0.0
      {
        if i < n && j < n {
          assert r.matrix[i][j] == s.matrix[i][j];
        }
      }
    }
  }

  /** Loading price rows into a state without ratios adds only zero ratios. */
  lemma {:induction false} AddAllZero(s: State, rows: seq<PriceRow>)
    requires Valid(s) && ZeroMatrix(s)
    ensures ZeroMatrix(AddAll(s, rows))
    decreases |rows|
  {
    if |rows| > 0 {
      var s1 := AddToken(s, rows[0].token, rows[0].price);
      AddTokenZero(s, rows[0].token, rows[0].price);
      assert AddAll(s, rows) == AddAll(s1, rows[1..]);
      AddAllZero(s1, rows[1..]);
    }
  }

  /** The ratio a stored reserve row writes at `[a][b]`, if any:
      `[token2][token1]` is `reserve2/reserve1` (written second, so it wins
      when the tokens coincide) and `[token1][token2]` is `reserve1/reserve2`. */
  function RowRatio(row: ReserveRow, a: string, b: string): Option<real>
    requires row.reserved1 != 0 && row.reserved2 != 0
  {
    var r1, r2 := Scaled(row.reserved1, row.decimal1), Scaled(row.reserved2, row.decimal2);
    assert r1 != 0.0 && r2 != 0.0;
    if row.token2 == a && row.token1 == b then Some(r2 / r1)
    else if row.token1 == a && row.token2 == b then Some(r1 / r2)
    else None
  }

  /** The ratio at `[a][b]` as the last stored row writing it leaves it. */
  function LastRatio(rows: seq<ReserveRow>, a: string, b: string): Option<real>
    requires NonZero(rows)
    decreases |rows|
  {
    if |rows| == 0 then None
    else
      NonZeroTail(rows);
      var later := LastRatio(rows[1..], a, b);
      if later.Some? then later else RowRatio(rows[0], a, b)
  }

  /** One reserve row sets its entry and leaves the others. */
  lemma RowRatioEntry(s: State, row: ReserveRow, a: nat, b: nat)
    requires Valid(s) && row.reserved1 != 0 && row.reserved2 != 0
    requires row.token1 in s.tokens && row.token2 in s.tokens
    requires a < |s.tokens| && b < |s.tokens|
    ensures Scaled(row.reserved1, row.decimal1) != 0.0 && Scaled(row.reserved2, row.decimal2) != 0.0
    ensures var u := UpdateReserves(s, row.token1, row.token2,
                                    Scaled(row.reserved1, row.decimal1), Scaled(row.reserved2, row.decimal2));
            u.Ok? && u.value.matrix[a][b] == RowRatio(row, s.tokens[a], s.tokens[b]).GetOr(s.matrix[a][b])
  {
    var r1, r2 := Scaled(row.reserved1, row.decimal1), Scaled(row.reserved2, row.decimal2);
    assert r1 != 0.0 && r2 != 0.0;
    var u := UpdateReserves(s, row.token1, row.token2, r1, r2);
    var i, j := IndexOf(s.tokens, row.token1), IndexOf(s.tokens, row.token2);
    IndexOfDistinct(s.tokens, a);
    IndexOfDistinct(s.tokens, b);
    if (a, b) == (j, i) {
      assert u.value.matrix[a][b] == r2 / r1;
    } else if (a, b) == (i, j) {
      assert u.value.matrix[a][b] == r1 / r2;
    } else {
      assert u.value.matrix[a][b] == s.matrix[a][b];
    }
  }

  /** After replaying stored reserve rows, each ratio is the one the last row
      naming that pair of tokens wrote, and any other ratio is unchanged. */
  lemma {:induction false} UpdateAllRatio(s: State, rows: seq<ReserveRow>, a: nat, b: nat)
    requires Valid(s) && NonZero(rows) && UpdateAll(s, rows).Ok?
    requires a < |s.tokens| && b < |s.tokens|
    ensures UpdateAll(s, rows).value.matrix[a][b] == LastRatio(rows, s.tokens[a], s.tokens[b]).GetOr(s.matrix[a][b])
    decreases |rows|
  {
    if |rows| > 0 {
      var row := rows[0];
      NonZeroTail(rows);
      RowRatioEntry(s, row, a, b);
      var s' := UpdateReserves(s, row.token1, row.token2,
                               Scaled(row.reserved1, row.decimal1), Scaled(row.reserved2, row.decimal2)).value;
      assert UpdateAll(s, rows) == UpdateAll(s', rows[1..]);
      UpdateAllRatio(s', rows[1..], a, b);
    }
  }

  /** `UpdateAll` over the whole matrix. */
  lemma UpdateAllRatios(s: State, rows: seq<ReserveRow>)
    requires Valid(s) && NonZero(rows) && UpdateAll(s, rows).Ok?
    ensures forall a, b :: 0 <= a < |s.tokens| && 0 <= b < |s.tokens| ==>
              UpdateAll(s, rows).value.matrix[a][b] == LastRatio(rows, s.tokens[a], s.tokens[b]).GetOr(s.matrix[a][b])
  {
    forall a, b | 0 <= a < |s.tokens| && 0 <= b < |s.tokens|
      ensures UpdateAll(s, rows).value.matrix[a][b] == LastRatio(rows, s.tokens[a], s.tokens[b]).GetOr(s.matrix[a][b])
    {
      UpdateAllRatio(s, rows, a, b);
    }
  }

  /** Only tokens named by some row get a ratio. */
  lemma {:induction false} LastRatioNamed(rows: seq<ReserveRow>, a: string, b: string, tokens: seq<string>)
    requires NonZero(rows)
    requires forall k :: 0 <= k < |rows| ==> rows[k].token1 in tokens && rows[k].token2 in tokens
    ensures LastRatio(rows, a, b).Some? ==> a in tokens && b in tokens
    decreases |rows|
  {
    if |rows| > 0 {
      NonZeroTail(rows);
      assert forall k :: 0 <= k < |rows[1..]| ==> rows[1..][k] == rows[k + 1];
      LastRatioNamed(rows[1..], a, b, tokens);
    }
  }

  /** `init` reloads the full price vector and ratio matrix: the tokens are
      those of the stored price rows plus REEF; each listed token holds the
      price of its first stored row; REEF, when no row lists it, comes last
      at price 0; every ratio is the one the last stored reserve row naming
      that pair wrote, and 0 when none did. */
  lemma InitLoads(s: State, priceRows: seq<PriceRow>, reserveRows: seq<ReserveRow>)
    requires NonZero(reserveRows) && Init(s, priceRows, reserveRows).Ok?
    ensures var r := Init(s, priceRows, reserveRows).value;
            && (forall t :: t in r.tokens <==> Listed(priceRows, t) || t == ReefAddress)
            && (forall i :: 0 <= i < |r.tokens| && Listed(priceRows, r.tokens[i]) ==>
                  FirstPrice(priceRows, r.tokens[i]) == Some(r.prices[i]))
            && (!Listed(priceRows, ReefAddress) ==>
                  r.tokens[|r.tokens| - 1] == ReefAddress && r.prices[|r.tokens| - 1] == 0.0)
            && (forall a, b :: 0 <= a < |r.tokens| && 0 <= b < |r.tokens| ==>
                  r.matrix[a][b] == LastRatio(reserveRows, r.tokens[a], r.tokens[b]).GetOr(0.0))
  {
    var s0 := State(s.skip, [], [], []);
    var s1 := AddAll(s0, priceRows);
    var s2 := UpdateAll(s1, reserveRows).value;
    InitPrices(s0, s1, s2, priceRows);
    var r := Init(s, priceRows, reserveRows).value;
    forall a, b | 0 <= a < |r.tokens| && 0 <= b < |r.tokens|
      ensures r.matrix[a][b] == LastRatio(reserveRows, r.tokens[a], r.tokens[b]).GetOr(0.0)
    {
      InitRatioAt(s, priceRows, reserveRows, a, b);
    }
  }

  /** The token and price half of `InitLoads`, from the replayed state. */
  lemma InitPrices(s0: State, s1: State, s2: State, priceRows: seq<PriceRow>)
    requires s0.tokens == [] && s0.prices == [] && s0.matrix == []
    requires s1 == AddAll(s0, priceRows)
    requires Valid(s2) && s2.tokens == s1.tokens && s2.prices == s1.prices
    ensures var r := if ReefAddress in s2.tokens then s2 else AddToken(s2, ReefAddress, 0.0);
            && (forall t :: t in r.tokens <==> Listed(priceRows, t) || t == ReefAddress)
            && (forall i :: 0 <= i < |r.tokens| && Listed(priceRows, r.tokens[i]) ==>
                  FirstPrice(priceRows, r.tokens[i]) == Some(r.prices[i]))
            && (!Listed(priceRows, ReefAddress) ==>
                  r.tokens[|r.tokens| - 1] == ReefAddress && r.prices[|r.tokens| - 1] == 0.0)
  {
    AddAllPrices(s0, priceRows);
  }

  /** The matrix half of `InitLoads`, one entry at a time. */
  lemma InitRatioAt(s: State, priceRows: seq<PriceRow>, reserveRows: seq<ReserveRow>, a: nat, b: nat)
    requires NonZero(reserveRows) && Init(s, priceRows, reserveRows).Ok?
    requires a < |Init(s, priceRows, reserveRows).value.tokens| && b < |Init(s, priceRows, reserveRows).value.tokens|
    ensures Valid(Init(s, priceRows, reserveRows).value)
    ensures var r := Init(s, priceRows, reserveRows).value;
            r.matrix[a][b] == LastRatio(reserveRows, r.tokens[a], r.tokens[b]).GetOr(0.0)
  {
    var s0 := State(s.skip, [], [], []);
    var s1 := AddAll(s0, priceRows);
    var s2 := UpdateAll(s1, reserveRows).value;
    var r := Init(s, priceRows, reserveRows).value;
    assert r == if ReefAddress in s2.tokens then s2 else AddToken(s2, ReefAddress, 0.0);
    AddAllZero(s0, priceRows);
    LastRatioCovered(s1, reserveRows);
    if a < |s2.tokens| && b < |s2.tokens| {
      UpdateAllRatio(s1, reserveRows, a, b);
      InitRatioOld(s1, s2, r, reserveRows, a, b);
    } else {
      InitRatioReef(s1, s2, reserveRows, a, b);
    }
  }

  /** An entry between two tokens of the replayed state. */
  lemma InitRatioOld(s1: State, s2: State, r: State, rows: seq<ReserveRow>, a: nat, b: nat)
    requires Valid(s2) && s2.tokens == s1.tokens && |s1.matrix| == |s1.tokens| && NonZero(rows)
    requires a < |s2.tokens| && b < |s2.tokens| && b < |s1.matrix[a]| && s1.matrix[a][b] == 0.0
    requires s2.matrix[a][b] == LastRatio(rows, s1.tokens[a], s1.tokens[b]).GetOr(s1.matrix[a][b])
    requires r == if ReefAddress in s2.tokens then s2 else AddToken(s2, ReefAddress, 0.0)
    ensures a < |r.tokens| && b < |r.tokens| && b < |r.matrix[a]|
    ensures r.matrix[a][b] == LastRatio(rows, r.tokens[a], r.tokens[b]).GetOr(0.0)
  {
  }

  /** An entry in the row or column of a REEF token that no price row listed. */
  lemma InitRatioReef(s1: State, s2: State, rows: seq<ReserveRow>, a: nat, b: nat)
    requires Valid(s2) && s2.tokens == s1.tokens && NonZero(rows)
    requires forall k :: 0 <= k < |rows| ==> rows[k].token1 in s1.tokens && rows[k].token2 in s1.tokens
    requires ReefAddress !in s2.tokens
    requires a <= |s2.tokens| && b <= |s2.tokens| && (a == |s2.tokens| || b == |s2.tokens|)
    ensures var r := AddToken(s2, ReefAddress, 0.0);
            r.matrix[a][b] == LastRatio(rows, r.tokens[a], r.tokens[b]).GetOr(0.0)
  {
    var r := AddToken(s2, ReefAddress, 0.0);
    LastRatioNamed(rows, r.tokens[a], r.tokens[b], s1.tokens);
  }

  /** A successful replay only names listed tokens. */
  lemma LastRatioCovered(s: State, rows: seq<ReserveRow>)
    requires Valid(s) && NonZero(rows) && UpdateAll(s, rows).Ok?
    ensures forall k :: 0 <= k < |rows| ==> rows[k].token1 in s.tokens && rows[k].token2 in s.tokens
  {
  }
}
