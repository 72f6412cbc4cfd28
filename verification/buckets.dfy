/** Sequence-level counterparts of the SQL window and grouping constructs the
    rollup functions use: filtering, grouping by a key (`PARTITION BY`,
    `GROUP BY`, `DISTINCT ON`), sums, and the first, last, largest and
    smallest value of a group. Groups come out in order of first appearance;
    a row order is only ever taken from the input. */
module Buckets {

  function Map<T, U>(rows: seq<T>, f: T -> U): (r: seq<U>)
    ensures |r| == |rows|
    ensures forall i :: 0 <= i < |rows| ==> r[i] == f(rows[i])
  {
    seq(|rows|, i requires 0 <= i < |rows| => f(rows[i]))
  }

  /** `WHERE p`: the rows satisfying `p`, in input order. */
  function Keep<T(!new)>(rows: seq<T>, p: T -> bool): (r: seq<T>)
    ensures |r| <= |rows|
    ensures forall x :: x in r <==> x in rows && p(x)
    decreases |rows|
  {
    if |rows| == 0 then []
    else (if p(rows[0]) then [rows[0]] else []) + Keep(rows[1..], p)
  }

  /** The rows whose key is `key`, in input order. */
  function Same<T(!new), K(==)>(rows: seq<T>, k: T -> K, key: K): (r: seq<T>)
    ensures |r| <= |rows|
    ensures forall x :: x in r <==> x in rows && k(x) == key
    decreases |rows|
  {
    if |rows| == 0 then []
    else (if k(rows[0]) == key then [rows[0]] else []) + Same(rows[1..], k, key)
  }

  /** The rows whose key is not `key`, in input order. */
  function Other<T(!new), K(==)>(rows: seq<T>, k: T -> K, key: K): (r: seq<T>)
    ensures |r| <= |rows|
    ensures forall x :: x in r <==> x in rows && k(x) != key
    ensures |Same(rows, k, key)| + |r| == |rows|
    decreases |rows|
  {
    if |rows| == 0 then []
    else (if k(rows[0]) != key then [rows[0]] else []) + Other(rows[1..], k, key)
  }

  /** Removing the rows of one key leaves the rows of every other key as
      they were. */
  lemma {:induction false} SameOfOther<T(!new), K>(rows: seq<T>, k: T -> K, gone: K, key: K)
    requires key != gone
    ensures Same(Other(rows, k, gone), k, key) == Same(rows, k, key)
    decreases |rows|
  {
    if |rows| > 0 {
      var x, tail := rows[0], rows[1..];
      SameOfOther(tail, k, gone, key);
      if k(x) != gone {
        assert Other(rows, k, gone) == [x] + Other(tail, k, gone);
        SameCons(x, Other(tail, k, gone), k, key);
      } else {
        assert Other(rows, k, gone) == [] + Other(tail, k, gone) == Other(tail, k, gone);
        assert Same(rows, k, key) == [] + Same(tail, k, key) == Same(tail, k, key);
      }
    }
  }

  lemma SameCons<T(!new), K>(x: T, rest: seq<T>, k: T -> K, key: K)
    ensures Same([x] + rest, k, key) == (if k(x) == key then [x] else []) + Same(rest, k, key)
  {
    assert ([x] + rest)[0] == x && ([x] + rest)[1..] == rest;
  }

  /** `PARTITION BY k` / `GROUP BY k`: one group per distinct key, in order of
      first appearance; each group is every row of its key, in input order. */
  function Groups<T(!new), K(==)>(rows: seq<T>, k: T -> K): (gs: seq<seq<T>>)
    ensures |gs| <= |rows|
    ensures forall i :: 0 <= i < |gs| ==> |gs[i]| > 0 && gs[i] == Same(rows, k, k(gs[i][0]))
    ensures forall i, j :: 0 <= i < j < |gs| ==> k(gs[i][0]) != k(gs[j][0])
    ensures forall x :: x in rows ==> exists i :: 0 <= i < |gs| && k(gs[i][0]) == k(x)
    decreases |rows|
  {
    if |rows| == 0 then []
    else
      var key := k(rows[0]);
      var rest := Groups(Other(rows, k, key), k);
      var gs := [Same(rows, k, key)] + rest;
      HeadsAvoidKey(rows, k, rest);
      GroupsConsSame(rows, k, rest, gs);
      GroupsConsDistinct(rows, k, rest, gs);
      GroupsConsCovers(rows, k, rest, gs);
      gs
  }

  /** The groups of the rows without the first row's key all have other keys. */
  lemma HeadsAvoidKey<T(!new), K>(rows: seq<T>, k: T -> K, rest: seq<seq<T>>)
    requires |rows| > 0
    requires forall i :: 0 <= i < |rest| ==>
      |rest[i]| > 0 && rest[i] == Same(Other(rows, k, k(rows[0])), k, k(rest[i][0]))
    ensures forall i :: 0 <= i < |rest| ==> k(rest[i][0]) != k(rows[0])
  {
    forall i | 0 <= i < |rest|
      ensures k(rest[i][0]) != k(rows[0])
    {
      var g := rest[i];
      assert g[0] in g;
      assert g[0] in Other(rows, k, k(rows[0]));
    }
  }

  /** Prefixing those groups with the rows of the first row's key gives groups
      of all the rows. */
  lemma GroupsConsSame<T(!new), K>(rows: seq<T>, k: T -> K, rest: seq<seq<T>>, gs: seq<seq<T>>)
    requires |rows| > 0 && gs == [Same(rows, k, k(rows[0]))] + rest
    requires forall i :: 0 <= i < |rest| ==>
      |rest[i]| > 0 && rest[i] == Same(Other(rows, k, k(rows[0])), k, k(rest[i][0]))
    requires forall i :: 0 <= i < |rest| ==> k(rest[i][0]) != k(rows[0])
    ensures forall i :: 0 <= i < |gs| ==> |gs[i]| > 0 && gs[i] == Same(rows, k, k(gs[i][0]))
  {
    var key := k(rows[0]);
    assert rows[0] in gs[0];
    forall i | 0 <= i < |gs|
      ensures |gs[i]| > 0 && gs[i] == Same(rows, k, k(gs[i][0]))
    {
      if i > 0 {
        var g := rest[i - 1];
        assert gs[i] == g;
        SameOfOther(rows, k, key, k(g[0]));
      }
    }
  }

  lemma GroupsConsDistinct<T(!new), K>(rows: seq<T>, k: T -> K, rest: seq<seq<T>>, gs: seq<seq<T>>)
    requires |rows| > 0 && gs == [Same(rows, k, k(rows[0]))] + rest
    requires forall i :: 0 <= i < |rest| ==> |rest[i]| > 0 && k(rest[i][0]) != k(rows[0])
    requires forall i, j :: 0 <= i < j < |rest| ==> k(rest[i][0]) != k(rest[j][0])
    ensures forall i, j :: 0 <= i < j < |gs| ==> |gs[i]| > 0 && |gs[j]| > 0 && k(gs[i][0]) != k(gs[j][0])
  {
    assert rows[0] in gs[0];
    forall i, j | 0 <= i < j < |gs|
      ensures |gs[i]| > 0 && |gs[j]| > 0 && k(gs[i][0]) != k(gs[j][0])
    {
      assert gs[j] == rest[j - 1];
      if i > 0 {
        assert gs[i] == rest[i - 1];
      } else {
        assert k(gs[i][0]) == k(rows[0]);
      }
    }
  }

  lemma GroupsConsCovers<T(!new), K>(rows: seq<T>, k: T -> K, rest: seq<seq<T>>, gs: seq<seq<T>>)
    requires |rows| > 0 && gs == [Same(rows, k, k(rows[0]))] + rest
    requires forall i :: 0 <= i < |rest| ==> |rest[i]| > 0
    requires forall x :: x in Other(rows, k, k(rows[0])) ==> exists i :: 0 <= i < |rest| && k(rest[i][0]) == k(x)
    ensures forall x :: x in rows ==> exists i :: 0 <= i < |gs| && |gs[i]| > 0 && k(gs[i][0]) == k(x)
  {
    forall x | x in rows
      ensures exists i :: 0 <= i < |gs| && |gs[i]| > 0 && k(gs[i][0]) == k(x)
    {
      var i := CoverIndex(rows, k, rest, gs, x);
    }
  }

  /** The group of one row among the prefixed groups. */
  lemma CoverIndex<T(!new), K>(rows: seq<T>, k: T -> K, rest: seq<seq<T>>, gs: seq<seq<T>>, x: T) returns (i: int)
    requires |rows| > 0 && gs == [Same(rows, k, k(rows[0]))] + rest
    requires forall i :: 0 <= i < |rest| ==> |rest[i]| > 0
    requires forall x :: x in Other(rows, k, k(rows[0])) ==> exists i :: 0 <= i < |rest| && k(rest[i][0]) == k(x)
    requires x in rows
    ensures 0 <= i < |gs| && |gs[i]| > 0 && k(gs[i][0]) == k(x)
  {
    var key := k(rows[0]);
    if k(x) == key {
      assert rows[0] in gs[0];
      i := 0;
    } else {
      var j := CoverTail(rows, k, rest, x);
      assert gs[j + 1] == rest[j];
      i := j + 1;
    }
  }

  /** A row of another key than the first row's lies in one of the later groups. */
  lemma CoverTail<T(!new), K>(rows: seq<T>, k: T -> K, rest: seq<seq<T>>, x: T) returns (j: int)
    requires |rows| > 0
    requires forall i :: 0 <= i < |rest| ==> |rest[i]| > 0
    requires forall x :: x in Other(rows, k, k(rows[0])) ==> exists i :: 0 <= i < |rest| && k(rest[i][0]) == k(x)
    requires x in rows && k(x) != k(rows[0])
    ensures 0 <= j < |rest| && k(rest[j][0]) == k(x)
  {
    assert x in Other(rows, k, k(rows[0]));
    j :| 0 <= j < |rest| && k(rest[j][0]) == k(x);
  }

  function Sum<T>(rows: seq<T>, f: T -> real): real
    decreases |rows|
  {
    if |rows| == 0 then 0.0 else f(rows[0]) + Sum(rows[1..], f)
  }

  /** The rows of one key and the rest add up to the whole. */
  lemma {:induction false} SumSameOther<T(!new), K>(rows: seq<T>, k: T -> K, key: K, f: T -> real)
    ensures Sum(rows, f) == Sum(Same(rows, k, key), f) + Sum(Other(rows, k, key), f)
    decreases |rows|
  {
    if |rows| > 0 {
      SumSameOther(rows[1..], k, key, f);
      var s, o := Same(rows[1..], k, key), Other(rows[1..], k, key);
      if k(rows[0]) == key {
        assert ([rows[0]] + s)[1..] == s;
        assert Other(rows, k, key) == o;
      } else {
        assert ([rows[0]] + o)[1..] == o;
        assert Same(rows, k, key) == s;
      }
    }
  }

  /** The group sums, one after the other. */
  function SumOfGroups<T>(gs: seq<seq<T>>, f: T -> real): real
    decreases |gs|
  {
    if |gs| == 0 then 0.0 else Sum(gs[0], f) + SumOfGroups(gs[1..], f)
  }

  /** Grouping neither loses nor duplicates anything: the per-group sums add
      up to the sum over all rows. */
  lemma {:induction false} GroupsConserveSum<T(!new), K>(rows: seq<T>, k: T -> K, f: T -> real)
    ensures SumOfGroups(Groups(rows, k), f) == Sum(rows, f)
    decreases |rows|
  {
    if |rows| > 0 {
      var key := k(rows[0]);
      GroupsConserveSum(Other(rows, k, key), k, f);
      SumSameOther(rows, k, key, f);
      var gs := Groups(rows, k);
      assert gs == [Same(rows, k, key)] + Groups(Other(rows, k, key), k);
      assert gs[1..] == Groups(Other(rows, k, key), k);
    }
  }

  /** When every row has its own key, grouping keeps every row apart. */
  lemma {:induction false} DistinctKeysMakeSingletons<T(!new), K>(rows: seq<T>, k: T -> K)
    requires forall i, j :: 0 <= i < j < |rows| ==> k(rows[i]) != k(rows[j])
    ensures |Groups(rows, k)| == |rows|
    ensures forall i :: 0 <= i < |rows| ==> Groups(rows, k)[i] == [rows[i]]
    decreases |rows|
  {
    if |rows| > 0 {
      var tail := rows[1..];
      DistinctHeadAlone(rows, k);
      DistinctKeysMakeSingletons(tail, k);
      GroupsUnfold(rows, k);
      var gs := Groups(rows, k);
      assert gs == [[rows[0]]] + Groups(tail, k);
      forall i | 0 <= i < |rows|
        ensures gs[i] == [rows[i]]
      {
        if i > 0 {
          assert gs[i] == Groups(tail, k)[i - 1];
          assert tail[i - 1] == rows[i];
        }
      }
    }
  }

  /** With distinct keys the first row is alone under its key. */
  lemma {:induction false} DistinctHeadAlone<T(!new), K>(rows: seq<T>, k: T -> K)
    requires |rows| > 0
    requires forall i, j :: 0 <= i < j < |rows| ==> k(rows[i]) != k(rows[j])
    ensures Same(rows, k, k(rows[0])) == [rows[0]]
    ensures Other(rows, k, k(rows[0])) == rows[1..]
    ensures forall i, j :: 0 <= i < j < |rows[1..]| ==> k(rows[1..][i]) != k(rows[1..][j])
  {
    var key := k(rows[0]);
    var tail := rows[1..];
    forall j | 0 <= j < |tail|
      ensures k(tail[j]) != key
    {
      assert tail[j] == rows[j + 1];
    }
    OtherOfAbsent(tail, k, key);
    assert |Same(tail, k, key)| == 0;
    forall i, j | 0 <= i < j < |tail|
      ensures k(tail[i]) != k(tail[j])
    {
      assert tail[i] == rows[i + 1] && tail[j] == rows[j + 1];
    }
  }

  /** One step of `Groups`. */
  lemma GroupsUnfold<T(!new), K>(rows: seq<T>, k: T -> K)
    requires |rows| > 0
    ensures Groups(rows, k) == [Same(rows, k, k(rows[0]))] + Groups(Other(rows, k, k(rows[0])), k)
  {
  }

  lemma {:induction false} OtherOfAbsent<T(!new), K>(rows: seq<T>, k: T -> K, key: K)
    requires forall i :: 0 <= i < |rows| ==> k(rows[i]) != key
    ensures Other(rows, k, key) == rows
    decreases |rows|
  {
    if |rows| > 0 {
      OtherOfAbsent(rows[1..], k, key);
      assert [rows[0]] + rows[1..] == rows;
    }
  }

  /** `LAST_VALUE ... ORDER BY time` over a whole group: the position of the
      latest row, the last one in input order among rows with equal times. */
  function LatestIndex<T>(rows: seq<T>, time: T -> int): (i: nat)
    requires |rows| > 0
    ensures i < |rows|
    ensures forall j :: 0 <= j < |rows| ==> time(rows[j]) <= time(rows[i])
    ensures forall j :: i < j < |rows| ==> time(rows[j]) < time(rows[i])
    decreases |rows|
  {
    if |rows| == 1 then 0
    else
      var i := LatestIndex(rows[..|rows| - 1], time);
      assert forall j :: 0 <= j < |rows| - 1 ==> rows[..|rows| - 1][j] == rows[j];
      if time(rows[|rows| - 1]) >= time(rows[i]) then |rows| - 1 else i
  }

  /** `FIRST_VALUE ... ORDER BY time`: the position of the earliest row, the
      first one in input order among rows with equal times. */
  function EarliestIndex<T>(rows: seq<T>, time: T -> int): (i: nat)
    requires |rows| > 0
    ensures i < |rows|
    ensures forall j :: 0 <= j < |rows| ==> time(rows[i]) <= time(rows[j])
    ensures forall j :: 0 <= j < i ==> time(rows[i]) < time(rows[j])
    decreases |rows|
  {
    if |rows| == 1 then 0
    else
      var i := 1 + EarliestIndex(rows[1..], time);
      if time(rows[0]) <= time(rows[i]) then 0 else i
  }

  /** `MAX(f)` over a non-empty group. */
  function MaxOf<T>(rows: seq<T>, f: T -> real): (m: real)
    requires |rows| > 0
    ensures forall j :: 0 <= j < |rows| ==> f(rows[j]) <= m
    ensures exists j :: 0 <= j < |rows| && f(rows[j]) == m
    decreases |rows|
  {
    if |rows| == 1 then f(rows[0])
    else
      var m := MaxOf(rows[1..], f);
      assert forall j :: 1 <= j < |rows| ==> rows[1..][j - 1] == rows[j];
      if f(rows[0]) > m then f(rows[0]) else m
  }

  /** `MIN(f)` over a non-empty group. */
  function MinOf<T>(rows: seq<T>, f: T -> real): (m: real)
    requires |rows| > 0
    ensures forall j :: 0 <= j < |rows| ==> m <= f(rows[j])
    ensures exists j :: 0 <= j < |rows| && f(rows[j]) == m
    decreases |rows|
  {
    if |rows| == 1 then f(rows[0])
    else
      var m := MinOf(rows[1..], f);
      assert forall j :: 1 <= j < |rows| ==> rows[1..][j - 1] == rows[j];
      if f(rows[0]) < m then f(rows[0]) else m
  }

  // ---------------------------------------------------------------------
  // Latest and earliest as predicates, for stating results
  // ---------------------------------------------------------------------

  /** Row `m` of `g` is its latest, and the last in input order among rows
      as late as it. */
  ghost predicate IsLatest<T>(g: seq<T>, m: int, time: T -> int) {
    && 0 <= m < |g|
    && (forall j :: 0 <= j < |g| ==> time(g[j]) <= time(g[m]))
    && (forall j :: m < j < |g| ==> time(g[j]) < time(g[m]))
  }

  /** Row `m` of `g` is its earliest, and the first in input order among
      rows as early as it. */
  ghost predicate IsEarliest<T>(g: seq<T>, m: int, time: T -> int) {
    && 0 <= m < |g|
    && (forall j :: 0 <= j < |g| ==> time(g[m]) <= time(g[j]))
    && (forall j :: 0 <= j < m ==> time(g[m]) < time(g[j]))
  }

  /** The tie-break makes the latest row unique. */
  lemma LatestIsUnique<T>(g: seq<T>, a: int, b: int, time: T -> int)
    requires IsLatest(g, a, time) && IsLatest(g, b, time)
    ensures a == b
  {
    var ga, gb := g[a], g[b];
    assert time(ga) == time(g[a]) && time(gb) == time(g[b]);
  }

  /** The tie-break makes the earliest row unique. */
  lemma EarliestIsUnique<T>(g: seq<T>, a: int, b: int, time: T -> int)
    requires IsEarliest(g, a, time) && IsEarliest(g, b, time)
    ensures a == b
  {
    var ga, gb := g[a], g[b];
    assert time(ga) == time(g[a]) && time(gb) == time(g[b]);
  }

  // ---------------------------------------------------------------------
  // Sums over mapped and grouped rows
  // ---------------------------------------------------------------------

  lemma {:induction false} SumMap<T, U>(rows: seq<T>, f: T -> U, h: U -> real, hf: T -> real)
    requires forall x :: hf(x) == h(f(x))
    ensures Sum(Map(rows, f), h) == Sum(rows, hf)
    decreases |rows|
  {
    if |rows| > 0 {
      SumMap(rows[1..], f, h, hf);
      assert Map(rows, f)[1..] == Map(rows[1..], f);
    }
  }

  lemma {:induction false} SumScale<T>(rows: seq<T>, c: real, h: T -> real, ch: T -> real)
    requires forall x :: ch(x) == c * h(x)
    ensures Sum(rows, ch) == c * Sum(rows, h)
    decreases |rows|
  {
    if |rows| > 0 {
      SumScale(rows[1..], c, h, ch);
    }
  }

  /** A sequence whose i-th value is the sum of the i-th group sums to the
      same as the groups. */
  lemma {:induction false} SumPerGroup<T, W>(w: seq<W>, gs: seq<seq<T>>, f: W -> real, h: T -> real)
    requires |w| == |gs|
    requires forall i :: 0 <= i < |w| ==> f(w[i]) == Sum(gs[i], h)
    ensures Sum(w, f) == SumOfGroups(gs, h)
    decreases |w|
  {
    if |w| > 0 {
      SumPerGroup(w[1..], gs[1..], f, h);
    }
  }

  /** An element is in the image of `rows` exactly when it is `f` of a row. */
  lemma MapMembers<T, U>(rows: seq<T>, f: T -> U)
    ensures forall o :: o in Map(rows, f) <==> exists s :: s in rows && o == f(s)
  {
    var r := Map(rows, f);
    forall o | o in r ensures exists s :: s in rows && o == f(s) {
      var i :| 0 <= i < |r| && r[i] == o;
      assert rows[i] in rows;
    }
    forall s | s in rows ensures f(s) in r {
      var i :| 0 <= i < |rows| && rows[i] == s;
      assert r[i] == f(s);
    }
  }

  lemma MapConcat<T, U>(a: seq<T>, b: seq<T>, f: T -> U)
    ensures Map(a + b, f) == Map(a, f) + Map(b, f)
  {
  }

  lemma MapTail<T, U>(rows: seq<T>, f: T -> U)
    requires |rows| > 0
    ensures Map(rows, f)[0] == f(rows[0]) && Map(rows, f)[1..] == Map(rows[1..], f)
  {
  }

  /** Mapping rows with a function that keeps their keys commutes with
      selecting the rows of a key. */
  lemma {:induction false} SameMap<T(!new), U(!new), K>(rows: seq<T>, f: T -> U, k1: T -> K, k2: U -> K, key: K)
    requires forall x :: k2(f(x)) == k1(x)
    ensures Same(Map(rows, f), k2, key) == Map(Same(rows, k1, key), f)
    decreases |rows|
  {
    if |rows| > 0 {
      var x, rest := rows[0], rows[1..];
      var head: seq<T> := if k1(x) == key then [x] else [];
      SameMap(rest, f, k1, k2, key);
      MapTail(rows, f);
      assert Same(Map(rows, f), k2, key) == Map(head, f) + Same(Map(rest, f), k2, key);
      assert Same(rows, k1, key) == head + Same(rest, k1, key);
      MapConcat(head, Same(rest, k1, key), f);
    }
  }

  /** Mapping rows with a function that keeps their keys commutes with
      removing the rows of a key. */
  lemma {:induction false} OtherMap<T(!new), U(!new), K>(rows: seq<T>, f: T -> U, k1: T -> K, k2: U -> K, key: K)
    requires forall x :: k2(f(x)) == k1(x)
    ensures Other(Map(rows, f), k2, key) == Map(Other(rows, k1, key), f)
    decreases |rows|
  {
    if |rows| > 0 {
      var x, rest := rows[0], rows[1..];
      var head: seq<T> := if k1(x) != key then [x] else [];
      OtherMap(rest, f, k1, k2, key);
      MapTail(rows, f);
      assert Other(Map(rows, f), k2, key) == Map(head, f) + Other(Map(rest, f), k2, key);
      assert Other(rows, k1, key) == head + Other(rest, k1, key);
      MapConcat(head, Other(rest, k1, key), f);
    }
  }

  /** Mapping rows with a function that keeps their keys maps each group. */
  lemma {:induction false} GroupsMap<T(!new), U(!new), K>(rows: seq<T>, f: T -> U, k1: T -> K, k2: U -> K)
    requires forall x :: k2(f(x)) == k1(x)
    ensures |Groups(Map(rows, f), k2)| == |Groups(rows, k1)|
    ensures forall i :: 0 <= i < |Groups(rows, k1)| ==> Groups(Map(rows, f), k2)[i] == Map(Groups(rows, k1)[i], f)
    decreases |rows|
  {
    if |rows| > 0 {
      var key := k1(rows[0]);
      MapTail(rows, f);
      SameMap(rows, f, k1, k2, key);
      OtherMap(rows, f, k1, k2, key);
      GroupsMap(Other(rows, k1, key), f, k1, k2);
      var mapped := Groups(Map(rows, f), k2);
      var plain := Groups(rows, k1);
      assert mapped == [Map(Same(rows, k1, key), f)] + Groups(Map(Other(rows, k1, key), f), k2);
      assert plain == [Same(rows, k1, key)] + Groups(Other(rows, k1, key), k1);
      forall i | 0 <= i < |plain|
        ensures mapped[i] == Map(plain[i], f)
      {
        if i > 0 {
          assert mapped[i] == Groups(Map(Other(rows, k1, key), f), k2)[i - 1];
          assert plain[i] == Groups(Other(rows, k1, key), k1)[i - 1];
        } else {
          assert mapped[0] == Map(Same(rows, k1, key), f);
          assert plain[0] == Same(rows, k1, key);
        }
      }
    }
  }

  /** A view with one output row per group, whose key reads back as its
      group's key: each output row's key selects exactly its group, no two
      output rows share a key, and every input row's key has an output row. */
  lemma GroupedView<T(!new), K, W>(rows: seq<T>, k: T -> K, w: seq<W>, keyOf: W -> K)
    requires |w| == |Groups(rows, k)|
    requires forall i :: 0 <= i < |w| ==> keyOf(w[i]) == k(Groups(rows, k)[i][0])
    ensures forall i :: 0 <= i < |w| ==> Same(rows, k, keyOf(w[i])) == Groups(rows, k)[i]
    ensures forall i, j :: 0 <= i < j < |w| ==> keyOf(w[i]) != keyOf(w[j])
    ensures forall x :: x in rows ==> exists i :: 0 <= i < |w| && keyOf(w[i]) == k(x)
  {
    GroupedViewCovers(rows, k, w, keyOf);
  }

  lemma GroupedViewCovers<T(!new), K, W>(rows: seq<T>, k: T -> K, w: seq<W>, keyOf: W -> K)
    requires |w| == |Groups(rows, k)|
    requires forall i :: 0 <= i < |w| ==> keyOf(w[i]) == k(Groups(rows, k)[i][0])
    ensures forall x :: x in rows ==> exists i :: 0 <= i < |w| && keyOf(w[i]) == k(x)
  {
    var gs := Groups(rows, k);
    forall x | x in rows
      ensures exists i :: 0 <= i < |w| && keyOf(w[i]) == k(x)
    {
      var i :| 0 <= i < |gs| && k(gs[i][0]) == k(x);
      assert keyOf(w[i]) == k(x);
    }
  }

  /** A rollup view: one output row per group, computed by `out` from the
      group's key and its rows. */
  function Rollup<T(!new), K(!new,==), W>(rows: seq<T>, k: T -> K, out: (K, seq<T>) --> W): (w: seq<W>)
    requires forall key, g :: |g| > 0 ==> out.requires(key, g)
    ensures |w| == |Groups(rows, k)|
    ensures forall i :: 0 <= i < |w| ==> w[i] == out(k(Groups(rows, k)[i][0]), Groups(rows, k)[i])
  {
    var gs := Groups(rows, k);
    seq(|gs|, i requires 0 <= i < |gs| => out(k(gs[i][0]), gs[i]))
  }

  /** When each output row reports its key, the rollup has one row per key
      present in the input, each computed from every input row of its key. */
  lemma RollupSpec<T(!new), K(!new), W>(rows: seq<T>, k: T -> K, out: (K, seq<T>) --> W, keyOf: W -> K)
    requires forall key, g :: |g| > 0 ==> out.requires(key, g)
    requires forall key, g :: |g| > 0 ==> keyOf(out(key, g)) == key
    ensures var w := Rollup(rows, k, out);
      && (forall i :: 0 <= i < |w| ==>
            var g := Same(rows, k, keyOf(w[i])); |g| > 0 && w[i] == out(keyOf(w[i]), g))
      && (forall i, j :: 0 <= i < j < |w| ==> keyOf(w[i]) != keyOf(w[j]))
      && (forall x :: x in rows ==> exists i :: 0 <= i < |w| && keyOf(w[i]) == k(x))
  {
    var w := Rollup(rows, k, out);
    GroupedView(rows, k, w, keyOf);
  }

  /** A sum of non-negative values is at least each of them. */
  lemma {:induction false} SumAtLeastMember<T>(rows: seq<T>, f: T -> real, x: T)
    requires forall y :: y in rows ==> f(y) >= 0.0
    requires x in rows
    ensures f(x) <= Sum(rows, f)
    decreases |rows|
  {
    SumNonNegative(rows[1..], f);
    if rows[0] != x {
      SumAtLeastMember(rows[1..], f, x);
    }
  }

  lemma {:induction false} SumNonNegative<T>(rows: seq<T>, f: T -> real)
    requires forall y :: y in rows ==> f(y) >= 0.0
    ensures Sum(rows, f) >= 0.0
    decreases |rows|
  {
    if |rows| > 0 {
      assert rows[0] in rows;
      SumNonNegative(rows[1..], f);
    }
  }

  /** `SUM(f) OVER (PARTITION BY k)` without `DISTINCT`: every row carries the
      total of its partition. */
  function WindowTotals<T(!new), K(==)>(rows: seq<T>, k: T -> K, f: T -> real): (r: seq<real>)
    ensures |r| == |rows|
    ensures forall i :: 0 <= i < |rows| ==> r[i] == Sum(Same(rows, k, k(rows[i])), f)
  {
    seq(|rows|, i requires 0 <= i < |rows| => Sum(Same(rows, k, k(rows[i])), f))
  }

  /** Every row of a window total lies in a group of the grouped rollup with
      the same total: the window and `GROUP BY` agree bucket by bucket. */
  lemma WindowTotalsMatchGroups<T(!new), K(!new)>(rows: seq<T>, k: T -> K, f: T -> real, i: int)
    requires 0 <= i < |rows|
    ensures exists j :: 0 <= j < |Groups(rows, k)| && k(Groups(rows, k)[j][0]) == k(rows[i])
                        && Sum(Groups(rows, k)[j], f) == WindowTotals(rows, k, f)[i]
  {
    var gs := Groups(rows, k);
    assert rows[i] in rows;
    var j :| 0 <= j < |gs| && k(gs[j][0]) == k(rows[i]);
    assert gs[j] == Same(rows, k, k(rows[i]));
  }
}
