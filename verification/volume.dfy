/** The per-block swap-volume accumulator (`Volume` history module). */
module Volume {
  import opened Common

  datatype Amounts = Amounts(volume1: int, volume2: int)

  /** `pools` is the list of known pools in discovery order; `block` holds the
      volumes accumulated since the last flush, keyed by pool id. */
  datatype State = State(pools: seq<string>, block: map<string, Amounts>)

  /** One `VolumeRaw` row. */
  datatype Row = Row(id: string, blockId: string, pool: string, volume1: int, volume2: int, timestamp: int)

  /** One call `updateVolume(pool, volume1, volume2)`. */
  datatype Update = Update(pool: string, volume1: int, volume2: int)

  ghost predicate Valid(s: State) {
    NoDuplicates(s.pools)
  }

  /** What a pool has accumulated so far, zero when nothing was recorded. */
  function Accumulated(block: map<string, Amounts>, pool: string): Amounts {
    if pool in block then block[pool] else Amounts(0, 0)
  }

  /** `init`: the known-pool list becomes every pool in the store; the
      accumulator is left as it is. */
  function Init(s: State, storePools: seq<string>): (r: State)
    ensures NoDuplicates(storePools) ==> Valid(r)
    ensures r.pools == storePools
    ensures r.block == s.block
  {
    State(storePools, s.block)
  }

  /** `updateVolume`: an unknown pool is fetched from the store (throwing when
      absent) and appended to the known list; the amounts are stored as given
      on the first update of a block and added componentwise afterwards. */
  function Apply(s: State, storePools: set<string>, u: Update): (r: Result<State>)
    ensures r.Err? <==> u.pool !in s.pools && u.pool !in storePools
    ensures r.Ok? ==> r.value.pools == (if u.pool in s.pools then s.pools else s.pools + [u.pool])
    ensures r.Ok? && Valid(s) ==> Valid(r.value)
    ensures r.Ok? ==> r.value.block.Keys == s.block.Keys + {u.pool}
    ensures r.Ok? ==> forall p :: p in s.block && p != u.pool ==> r.value.block[p] == s.block[p]
    ensures r.Ok? && u.pool !in s.block ==> r.value.block[u.pool] == Amounts(u.volume1, u.volume2)
    ensures r.Ok? ==> Accumulated(r.value.block, u.pool).volume1 == Accumulated(s.block, u.pool).volume1 + u.volume1
    ensures r.Ok? ==> Accumulated(r.value.block, u.pool).volume2 == Accumulated(s.block, u.pool).volume2 + u.volume2
  {
    if u.pool !in s.pools && u.pool !in storePools then
      Err("Pool " + u.pool + " not found")
    else
      var pools := if u.pool in s.pools then s.pools else s.pools + [u.pool];
      var amounts :=
        if u.pool !in s.block then Amounts(u.volume1, u.volume2)
        else Amounts(s.block[u.pool].volume1 + u.volume1, s.block[u.pool].volume2 + u.volume2);
      Ok(State(pools, s.block[u.pool := amounts]))
  }

  /** A run of `updateVolume` calls, stopping at the first that throws. */
  function ApplyAll(s: State, storePools: set<string>, us: seq<Update>): Result<State>
    decreases |us|
  {
    if |us| == 0 then Ok(s)
    else
      var s' :- Apply(s, storePools, us[0]);
      ApplyAll(s', storePools, us[1..])
  }

  /** The total of `volume1` (or `volume2` when `second`) over the updates of `pool`. */
  function Total(us: seq<Update>, pool: string, second: bool): int {
    if |us| == 0 then 0
    else
      (if us[0].pool == pool then (if second then us[0].volume2 else us[0].volume1) else 0)
      + Total(us[1..], pool, second)
  }

  /** Every pool's accumulated volume after a run of updates is what it had
      before plus the sum of its updates; the known list only grows and stays
      free of duplicates. */
  lemma {:induction false} ApplyAllAccumulates(s: State, storePools: set<string>, us: seq<Update>)
    requires Valid(s)
    requires forall k :: 0 <= k < |us| ==> us[k].pool in storePools
    ensures ApplyAll(s, storePools, us).Ok?
    ensures Valid(ApplyAll(s, storePools, us).value)
    ensures s.pools <= ApplyAll(s, storePools, us).value.pools
    ensures forall p :: Accumulated(ApplyAll(s, storePools, us).value.block, p).volume1
                        == Accumulated(s.block, p).volume1 + Total(us, p, false)
    ensures forall p :: Accumulated(ApplyAll(s, storePools, us).value.block, p).volume2
                        == Accumulated(s.block, p).volume2 + Total(us, p, true)
    decreases |us|
  {
    if |us| > 0 {
      var s' := Apply(s, storePools, us[0]).value;
      assert forall p :: p != us[0].pool ==> Accumulated(s'.block, p) == Accumulated(s.block, p);
      ApplyAllAccumulates(s', storePools, us[1..]);
    }
  }

  /** `save`: one row per known pool in list order, zero for a pool without
      updates in this block; afterwards the accumulator is empty and the known
      list is unchanged. */
  function Save(s: State, h: Header): (r: (State, seq<Row>))
    ensures r.0.pools == s.pools && r.0.block == map[]
    ensures |r.1| == |s.pools|
    ensures forall i :: 0 <= i < |r.1| ==>
      && r.1[i].pool == s.pools[i]
      && r.1[i].id == BlockKeyId(h.height, s.pools[i])
      && r.1[i].blockId == h.id
      && r.1[i].timestamp == h.timestamp
    ensures forall i :: 0 <= i < |r.1| ==>
      && r.1[i].volume1 == Accumulated(s.block, s.pools[i]).volume1
      && r.1[i].volume2 == Accumulated(s.block, s.pools[i]).volume2
    ensures forall i :: 0 <= i < |r.1| && s.pools[i] !in s.block ==> r.1[i].volume1 == 0 && r.1[i].volume2 == 0
  {
    var rows := seq(|s.pools|, i requires 0 <= i < |s.pools| =>
      var a := Accumulated(s.block, s.pools[i]);
      Row(BlockKeyId(h.height, s.pools[i]), h.id, s.pools[i], a.volume1, a.volume2, h.timestamp));
    (State(s.pools, map[]), rows)
  }

  /** A flush never writes two rows with the same id. */
  lemma SaveIdsDistinct(s: State, h: Header)
    requires Valid(s)
    ensures forall i, j :: 0 <= i < j < |Save(s, h).1| ==> Save(s, h).1[i].id != Save(s, h).1[j].id
  {
    var rows := Save(s, h).1;
    forall i, j | 0 <= i < j < |rows|
      ensures rows[i].id != rows[j].id
    {
      if rows[i].id == rows[j].id {
        BlockKeyIdInjective(h.height, s.pools[i], s.pools[j]);
      }
    }
  }

  /** Two swaps of 100 and 50 in one block flush as 150. */
  lemma TwoSwapsInOneBlock(h: Header)
    ensures var s := State(["P"], map[]);
            var r := ApplyAll(s, {"P"}, [Update("P", 100, 1), Update("P", 50, 2)]);
            r.Ok? && Save(r.value, h).1[0].volume1 == 150 && Save(r.value, h).1[0].volume2 == 3
  {
    var s := State(["P"], map[]);
    ApplyAllAccumulates(s, {"P"}, [Update("P", 100, 1), Update("P", 50, 2)]);
  }
}
