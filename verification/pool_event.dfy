/** The in-memory pool event (`PoolEvent`) that every pair handler fills in,
    and the `PoolEvent` row its `save` persists. Amounts are carried as the
    decimal strings the handlers write and converted with `BigInt` on save. */
module PoolEvent {
  import opened Common

  datatype PoolType = Mint | Burn | Swap | Sync | Transfer

  /** The extrinsic a log was emitted in: its index in the block and the
      signer's native address, absent for an unsigned extrinsic. */
  datatype Extrinsic = Extrinsic(index: Option<nat>, signer: Option<string>)

  /** `PoolEventData`: what the processor passes to a pair handler. */
  datatype PairData = PairData(poolId: string, blockHeight: nat, eventId: string, timestamp: int,
                               extrinsic: Option<Extrinsic>)

  datatype Event = Event(
    eventId: string, kind: PoolType, poolId: string, blockHeight: nat, timestamp: int, indexInBlock: nat,
    toAddress: Option<string>, senderAddress: Option<string>, signerAddress: Option<string>,
    amount1: Option<string>, amount2: Option<string>, amountIn1: Option<string>, amountIn2: Option<string>,
    reserved1: Option<string>, reserved2: Option<string>, supply: Option<string>, totalSupply: Option<string>)

  /** One persisted `PoolEvent` row. */
  datatype Row = Row(
    id: string, pool: string, toAddress: Option<string>, senderAddress: Option<string>,
    signerAddress: Option<string>, blockHeight: nat, indexInBlock: nat, kind: PoolType,
    amount1: int, amount2: int, amountIn1: int, amountIn2: int,
    reserved1: int, reserved2: int, supply: int, totalSupply: int, timestamp: int)

  /** The constructor: `indexInBlock` is the extrinsic's index or 0, and the
      signer address is read from the extrinsic's signature; a missing
      extrinsic or signature makes the property access throw. */
  function New(data: PairData, kind: PoolType): (r: Result<Event>)
    ensures r.Err? <==> data.extrinsic.None? || data.extrinsic.value.signer.None?
    ensures r.Ok? ==>
      var e := r.value;
      && e.eventId == data.eventId && e.kind == kind && e.poolId == data.poolId
      && e.blockHeight == data.blockHeight && e.timestamp == data.timestamp
      && e.indexInBlock == data.extrinsic.value.index.GetOr(0)
      && e.signerAddress == data.extrinsic.value.signer
      && e.toAddress.None? && e.senderAddress.None?
      && e.amount1.None? && e.amount2.None? && e.amountIn1.None? && e.amountIn2.None?
      && e.reserved1.None? && e.reserved2.None? && e.supply.None? && e.totalSupply.None?
  {
    match data.extrinsic
    case None => Err("Cannot read properties of undefined (reading 'index')")
    case Some(x) =>
      match x.signer
      case None => Err("Cannot read properties of undefined (reading 'address')")
      case Some(signer) =>
        Ok(Event(data.eventId, kind, data.poolId, data.blockHeight, data.timestamp, x.index.GetOr(0),
                 None, None, Some(signer), None, None, None, None, None, None, None, None))
  }

  /** A JavaScript truthiness test on an optional string. */
  predicate Truthy(o: Option<string>) {
    o.Some? && o.value != ""
  }

  /** `BigInt(field || '0')`. */
  function Amount(o: Option<string>): (r: Option<int>)
    ensures !Truthy(o) ==> r == Some(0)
    ensures Truthy(o) ==> r == ParseInt(o.value)
  {
    ParseZero();
    ParseInt(if Truthy(o) then o.value else "0")
  }

  lemma ParseZero()
    ensures ParseInt("0") == Some(0)
  {
    assert AllDigits("0");
    assert DigitsValue("0") == 0;
  }

  /** Every amount field converts. */
  predicate AllAmountsParse(e: Event) {
    && Amount(e.amount1).Some? && Amount(e.amount2).Some?
    && Amount(e.amountIn1).Some? && Amount(e.amountIn2).Some?
    && Amount(e.reserved1).Some? && Amount(e.reserved2).Some?
    && Amount(e.supply).Some? && Amount(e.totalSupply).Some?
  }

  /** Whether `save` persists nothing: a Transfer without a supply. */
  predicate Suppressed(e: Event) {
    e.kind == Transfer && !Truthy(e.supply)
  }

  function Convert(o: Option<string>): Result<int> {
    match Amount(o)
    case Some(v) => Ok(v)
    case None => Err("Cannot convert " + o.value + " to a BigInt")
  }

  /** `save`: a suppressed Transfer writes nothing; otherwise the pool must be
      registered and every amount field is converted, an absent or empty one
      being 0. `pools` is the set of registered pool ids. */
  function Save(e: Event, pools: set<string>): (r: Result<Option<Row>>)
    ensures Suppressed(e) ==> r == Ok(None)
    ensures !Suppressed(e) ==>
      (r.Err? <==> e.poolId !in pools || !AllAmountsParse(e))
    ensures !Suppressed(e) && e.poolId !in pools ==> r == Err("Pool with id " + e.poolId + " not found")
    ensures r.Ok? && !Suppressed(e) ==>
      r.value.Some? &&
      var row := r.value.value;
      && row.id == e.eventId && row.pool == e.poolId && row.kind == e.kind
      && row.toAddress == e.toAddress && row.senderAddress == e.senderAddress && row.signerAddress == e.signerAddress
      && row.blockHeight == e.blockHeight && row.indexInBlock == e.indexInBlock && row.timestamp == e.timestamp
      && Some(row.amount1) == Amount(e.amount1) && Some(row.amount2) == Amount(e.amount2)
      && Some(row.amountIn1) == Amount(e.amountIn1) && Some(row.amountIn2) == Amount(e.amountIn2)
      && Some(row.reserved1) == Amount(e.reserved1) && Some(row.reserved2) == Amount(e.reserved2)
      && Some(row.supply) == Amount(e.supply) && Some(row.totalSupply) == Amount(e.totalSupply)
  {
    if Suppressed(e) then Ok(None)
    else if e.poolId !in pools then Err("Pool with id " + e.poolId + " not found")
    else
      var a1 :- Convert(e.amount1);
      var a2 :- Convert(e.amount2);
      var i1 :- Convert(e.amountIn1);
      var i2 :- Convert(e.amountIn2);
      var r1 :- Convert(e.reserved1);
      var r2 :- Convert(e.reserved2);
      var s :- Convert(e.supply);
      var t :- Convert(e.totalSupply);
      Ok(Some(Row(e.eventId, e.poolId, e.toAddress, e.senderAddress, e.signerAddress, e.blockHeight,
                  e.indexInBlock, e.kind, a1, a2, i1, i2, r1, r2, s, t, e.timestamp)))
  }

  /** A fresh event of a registered pool saves as a row of zeros. */
  lemma UntouchedEventSavesZeros(data: PairData, kind: PoolType, pools: set<string>)
    requires New(data, kind).Ok? && kind != Transfer && data.poolId in pools
    ensures var row := Save(New(data, kind).value, pools).value.value;
            && row.amount1 == 0 && row.amount2 == 0 && row.amountIn1 == 0 && row.amountIn2 == 0
            && row.reserved1 == 0 && row.reserved2 == 0 && row.supply == 0 && row.totalSupply == 0
  {
  }

  /** No two rows share an id, as for a primary key. */
  ghost predicate UniqueIds(rows: seq<Row>) {
    forall i, j :: 0 <= i < j < |rows| ==> rows[i].id != rows[j].id
  }

  /** The position of the first row with id `id`, or -1. */
  function IdIndex(rows: seq<Row>, id: string): (k: int)
    ensures -1 <= k < |rows|
    ensures k == -1 <==> forall j :: 0 <= j < |rows| ==> rows[j].id != id
    ensures 0 <= k ==> rows[k].id == id
    decreases |rows|
  {
    if |rows| == 0 then -1
    else if rows[|rows| - 1].id == id && IdIndex(rows[..|rows| - 1], id) == -1 then |rows| - 1
    else
      var k := IdIndex(rows[..|rows| - 1], id);
      assert forall j :: 0 <= j < |rows| - 1 ==> rows[..|rows| - 1][j] == rows[j];
      k
  }

  /** `ctx.store.save(row)`: a row with the same id is replaced in place,
      otherwise the row is appended. */
  function Upsert(rows: seq<Row>, row: Row): (r: seq<Row>)
    ensures row in r
    ensures |r| == (if exists k :: 0 <= k < |rows| && rows[k].id == row.id then |rows| else |rows| + 1)
    ensures forall k :: 0 <= k < |rows| && rows[k].id != row.id ==> rows[k] == r[k]
    ensures forall k :: 0 <= k < |r| ==> r[k] == row || r[k] in rows
    ensures UniqueIds(rows) ==> UniqueIds(r)
  {
    var k := IdIndex(rows, row.id);
    if k < 0 then rows + [row]
    else
      var r := rows[k := row];
      assert r[k] == row;
      assert forall j :: 0 <= j < |r| && j != k ==> r[j] == rows[j];
      assert UniqueIds(rows) ==> UniqueIds(r) by {
        if UniqueIds(rows) {
          forall i, j | 0 <= i < j < |r| ensures r[i].id != r[j].id {
            if i != k && j != k { assert r[i] == rows[i] && r[j] == rows[j]; }
          }
        }
      }
      r
  }
}
