/** The last-known-reserves accumulator (`Reserves` history module): two
    parallel lists, pool ids and their latest (reserve1, reserve2, event id). */
module Reserves {
  import opened Common

  datatype Reserve = Reserve(reserve1: int, reserve2: int, eventId: string)

  datatype State = State(pools: seq<string>, reserves: seq<Reserve>)

  /** A `ReservedRaw` row read back from the store when the module starts. */
  datatype StoredRow = StoredRow(id: string, pool: string, reserved1: int, reserved2: int)

  /** One `ReservedRaw` row written by `save`. */
  datatype Row = Row(id: string, blockId: string, eventId: string, pool: string,
                     reserved1: int, reserved2: int, timestamp: int)

  const Empty := State([], [])

  /** The two lists stay parallel and no pool appears twice. */
  ghost predicate Valid(s: State) {
    |s.pools| == |s.reserves| && NoDuplicates(s.pools)
  }

  /** The reserve recorded for `pool`, if any. */
  function Lookup(s: State, pool: string): Option<Reserve>
    requires Valid(s)
  {
    var i := IndexOf(s.pools, pool);
    if i < 0 then None else Some(s.reserves[i])
  }

  /** `updateReserve`: an unseen pool is appended with its triple; a seen pool
      has its triple overwritten in place. */
  function Update(s: State, pool: string, eventId: string, reserve1: int, reserve2: int): (r: State)
    requires Valid(s)
    ensures Valid(r)
    ensures pool in s.pools ==> r.pools == s.pools
    ensures pool !in s.pools ==> r.pools == s.pools + [pool]
    ensures Lookup(r, pool) == Some(Reserve(reserve1, reserve2, eventId))
    ensures forall p :: p != pool ==> Lookup(r, p) == Lookup(s, p)
  {
    var i := IndexOf(s.pools, pool);
    var r := if i < 0 then State(s.pools + [pool], s.reserves + [Reserve(reserve1, reserve2, eventId)])
             else State(s.pools, s.reserves[i := Reserve(reserve1, reserve2, eventId)]);
    LookupAfterUpdate(s, r, pool, i);
    r
  }

  lemma LookupAfterUpdate(s: State, r: State, pool: string, i: int)
    requires Valid(s)
    requires i == IndexOf(s.pools, pool)
    requires i < 0 ==> r.pools == s.pools + [pool] && |r.reserves| == |s.reserves| + 1 && r.reserves[..|s.reserves|] == s.reserves
    requires 0 <= i ==> r.pools == s.pools && |r.reserves| == |s.reserves|
                        && forall k :: 0 <= k < |s.reserves| && k != i ==> r.reserves[k] == s.reserves[k]
    ensures Valid(r)
    ensures IndexOf(r.pools, pool) == (if i < 0 then |s.pools| else i)
    ensures forall p :: p != pool ==> IndexOf(r.pools, p) == IndexOf(s.pools, p)
    ensures forall p :: p != pool && 0 <= IndexOf(s.pools, p) ==> r.reserves[IndexOf(s.pools, p)] == s.reserves[IndexOf(s.pools, p)]
  {
    if i < 0 {
      assert r.pools[..|s.pools|] == s.pools;
      forall p | p != pool
        ensures IndexOf(r.pools, p) == IndexOf(s.pools, p)
      {
        var k := IndexOf(s.pools, p);
        if k >= 0 {
          assert r.pools[..k] == s.pools[..k];
        }
      }
    }
  }

  /** A run of updates, as `init` replays the stored rows. */
  function UpdateAll(s: State, rows: seq<StoredRow>): (r: State)
    requires Valid(s)
    ensures Valid(r)
    decreases |rows|
  {
    if |rows| == 0 then s
    else UpdateAll(Update(s, rows[0].pool, rows[0].id, rows[0].reserved1, rows[0].reserved2), rows[1..])
  }

  /** `init`: both lists are cleared, then every stored row is replayed through
      `updateReserve`, carrying the stored row's own id as the event id. */
  function Init(rows: seq<StoredRow>): (r: State)
    ensures Valid(r)
  {
    UpdateAll(Empty, rows)
  }

  /** The last stored row for `pool`, read from the end. */
  function LastStored(rows: seq<StoredRow>, pool: string): Option<Reserve> {
    if |rows| == 0 then None
    else if rows[|rows| - 1].pool == pool then
      var last := rows[|rows| - 1];
      Some(Reserve(last.reserved1, last.reserved2, last.id))
    else LastStored(rows[..|rows| - 1], pool)
  }

  /** Replaying rows leaves each pool with its last row (last write wins), and
      pools without rows keep what they had. */
  lemma {:induction false} UpdateAllIsLastWrite(s: State, rows: seq<StoredRow>, pool: string)
    requires Valid(s)
    ensures Lookup(UpdateAll(s, rows), pool)
         == (if LastStored(rows, pool).Some? then LastStored(rows, pool) else Lookup(s, pool))
    decreases |rows|
  {
    if |rows| > 0 {
      var init := rows[..|rows| - 1];
      var last := rows[|rows| - 1];
      assert rows == init + [last];
      UpdateAllSnoc(s, init, last);
      UpdateAllIsLastWrite(s, init, pool);
    }
  }

  lemma {:induction false} UpdateAllSnoc(s: State, rows: seq<StoredRow>, last: StoredRow)
    requires Valid(s)
    ensures UpdateAll(s, rows + [last])
         == Update(UpdateAll(s, rows), last.pool, last.id, last.reserved1, last.reserved2)
    decreases |rows|
  {
    if |rows| > 0 {
      var s' := Update(s, rows[0].pool, rows[0].id, rows[0].reserved1, rows[0].reserved2);
      assert (rows + [last])[1..] == rows[1..] + [last];
      UpdateAllSnoc(s', rows[1..], last);
    } else {
      assert (rows + [last])[1..] == [];
    }
  }

  /** After `init`, a pool's reserve is the one from its last stored row. */
  lemma InitIsLastStored(rows: seq<StoredRow>, pool: string)
    ensures Lookup(Init(rows), pool) == LastStored(rows, pool)
  {
    UpdateAllIsLastWrite(Empty, rows, pool);
  }

  /** `save`: one row for every pool ever seen, in list order, whether or not
      it was updated in this block; each row carries that pool's last event id
      and raw reserves. The state is not cleared. */
  function Save(s: State, h: Header): (rows: seq<Row>)
    requires Valid(s)
    ensures |rows| == |s.pools|
    ensures forall i :: 0 <= i < |rows| ==>
      && rows[i].pool == s.pools[i]
      && rows[i].id == BlockKeyId(h.height, s.pools[i])
      && rows[i].blockId == h.id
      && rows[i].timestamp == h.timestamp
      && Lookup(s, s.pools[i]) == Some(Reserve(rows[i].reserved1, rows[i].reserved2, rows[i].eventId))
  {
    var rows := seq(|s.pools|, i requires 0 <= i < |s.pools| =>
      Row(BlockKeyId(h.height, s.pools[i]), h.id, s.reserves[i].eventId, s.pools[i],
          s.reserves[i].reserve1, s.reserves[i].reserve2, h.timestamp));
    assert forall i :: 0 <= i < |s.pools| ==> IndexOf(s.pools, s.pools[i]) == i by {
      forall i | 0 <= i < |s.pools| ensures IndexOf(s.pools, s.pools[i]) == i {
        IndexOfDistinct(s.pools, i);
      }
    }
    rows
  }

  /** A pool that was seen before and did not trade in this block is still
      written by the flush, with its older reserves and event id. */
  lemma SaveRepeatsStalePools(s: State, q: string, eventId: string, r1: int, r2: int, h: Header, p: string)
    requires Valid(s) && p in s.pools && p != q
    ensures var rows := Save(Update(s, q, eventId, r1, r2), h);
            exists i :: 0 <= i < |rows| && rows[i].pool == p && rows[i].id == BlockKeyId(h.height, p)
                        && Lookup(s, p) == Some(Reserve(rows[i].reserved1, rows[i].reserved2, rows[i].eventId))
  {
    var u := Update(s, q, eventId, r1, r2);
    var rows := Save(u, h);
    var i := IndexOf(u.pools, p);
    assert p in u.pools;
    assert rows[i].pool == p;
  }
}
