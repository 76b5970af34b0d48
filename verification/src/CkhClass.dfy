/** `ckh_t`: cuckoo hashing with two buckets for each key and four cells in each bucket. */
module CkhClass {
  import opened Common
  import opened Arith
  import opened CkhTable

  /** How an attempt to place an item ends; `Running` means that the eviction loop has not ended yet. */
  datatype Outcome<K, V> = Stored | Carried(key: K, data: V) | Running(key: K, data: V)

  datatype Status = Done | Failed | Unfinished

  class Ckh<K(==), V> {
    /** How many pseudo-random numbers and how much memory were asked for so far. */
    var draws: nat
    var requests: nat
    var count: nat
    var lgMinBuckets: nat
    var lgCurBuckets: nat
    var tab: array<Cell<K, V>>
    ghost var at: map<K, nat>

    const hash: K -> (nat, nat)
    /** The pseudo-random numbers, and whether each request for memory is met. */
    const random: nat -> nat
    const granted: nat -> bool
    /** The largest table the allocator has a size class for, as a logarithm. */
    const lgMaxCells: nat
    /** How many evictions of one chain are followed. */
    const patience: nat

    function Buckets(): nat
      reads this`lgCurBuckets
    {
      Pow2(lgCurBuckets)
    }

    /** Every item in one of its two buckets, each key once, `count` the occupied cells. */
    ghost predicate Valid()
      reads this`tab, this`at, this`count, this`lgMinBuckets, this`lgCurBuckets, tab
    {
      && tab.Length == CELLS * Buckets() && Located(tab[..], at) && Homed(tab[..], hash, Buckets())
      && count == NumFull(tab[..]) && lgMinBuckets <= lgCurBuckets
    }

    /** The last request for memory since `before` was met. */
    ghost predicate Met(before: nat)
      reads this`requests
    {
      before < requests && granted(requests - 1)
    }

    /** The table is `t` with these cells and this index, of `2^lg` buckets. */
    ghost predicate Holds(t: array<Cell<K, V>>, cells: seq<Cell<K, V>>, index: map<K, nat>, lg: nat)
      reads this`tab, this`at, this`count, this`lgMinBuckets, this`lgCurBuckets, tab
    {
      tab == t && tab[..] == cells && at == index && lgCurBuckets == lg
    }

    /** These keys crowd a table of `2^lg` buckets. */
    ghost predicate Crowds(keys: set<K>, lg: nat)
    {
      Crowded(keys, hash, Pow2(lg))
    }

    /** They crowd every table from `2^low` buckets to below `2^high`. */
    ghost predicate CrowdsAll(keys: set<K>, low: nat, high: int)
    {
      forall lg: nat {:trigger Crowds(keys, lg)} | low <= lg < high :: Crowds(keys, lg)
    }

    lemma CrowdsNext(keys: set<K>, low: nat, high: nat)
      requires CrowdsAll(keys, low, high) && (low <= high ==> Crowds(keys, high))
      ensures CrowdsAll(keys, low, high + 1)
    {
    }

    /** What the table's keys crowd, they crowd together with the one that is carried. */
    lemma CrowdsOn(held: set<K>, keys: set<K>, low: nat, mid: nat, high: int)
      requires held <= keys && CrowdsAll(keys, low, mid) && CrowdsAll(held, mid, high)
      ensures CrowdsAll(keys, low, high)
    {
      forall lg: nat | low <= lg < high ensures Crowds(keys, lg) {
        if lg >= mid {
          assert Crowds(held, lg);
          CrowdedMore(held, keys, hash, Pow2(lg));
        }
      }
    }

    /** Half the table is no size class, or was refused, or is crowded by these keys. */
    ghost predicate NoSmaller(keys: set<K>, before: nat)
      reads this`requests, this`lgCurBuckets
    {
      lgCurBuckets + 1 > lgMaxCells || Refused(before) || (lgCurBuckets > 0 && Crowds(keys, lgCurBuckets - 1))
    }

    /** The last request for memory since `before` was refused. */
    ghost predicate Refused(before: nat)
      reads this`requests
    {
      before < requests && !granted(requests - 1)
    }

    /** The map the table holds. */
    ghost function Map(): map<K, V>
      requires Valid()
      reads this`tab, this`at, this`count, this`lgMinBuckets, this`lgCurBuckets, tab
    {
      MapOf(tab[..], at)
    }

    /** `ckh_new`, with memory for the first table. */
    constructor (minItems: nat, hashOf: K -> (nat, nat), randoms: nat -> nat, grants: nat -> bool, lgMax: nat,
        bound: nat)
      requires minItems > 0
      ensures Valid() && Map() == map[] && fresh(tab) && minItems <= tab.Length && lgMinBuckets == lgCurBuckets
      ensures 4 * minItems < 3 * tab.Length && tab.Length < 8 * (minItems / 3 + 1)
      ensures hash == hashOf && random == randoms && granted == grants && lgMaxCells == lgMax && patience == bound
    {
      hash, random, granted, lgMaxCells, patience := hashOf, randoms, grants, lgMax, bound;
      draws, requests, count := 0, 0, 0;
      at := map[];
      var minCells := ((minItems + (3 - minItems % 3)) / 3) * 4;
      var lgMinCells := 2;
      while Pow2(lgMinCells) < minCells
        invariant lgMinCells >= 2 && Pow2(lgMinCells) < 2 * minCells
        decreases minCells - Pow2(lgMinCells)
      {
        lgMinCells := lgMinCells + 1;
      }
      lgMinBuckets, lgCurBuckets := lgMinCells - 2, lgMinCells - 2;
      assert Pow2(lgMinCells) == 2 * Pow2(lgMinCells - 1) == 4 * Pow2(lgMinCells - 2);
      tab := new Cell<K, V>[Pow2(lgMinCells)](_ => Empty);
      new;
      NumEmpty(tab[..]);
    }

    /** `ckh_bucket_search` */
    method BucketSearch(bucket: nat, key: K) returns (cell: Option<nat>)
      requires bucket < Buckets() && tab.Length == CELLS * Buckets()
      ensures cell.Some? ==> cell.value < tab.Length && tab[cell.value].Full? && tab[cell.value].key == key
      ensures cell.None? ==>
        forall i | CELLS * bucket <= i < CELLS * bucket + CELLS :: tab[i].Full? ==> tab[i].key != key
    {
      for i := 0 to CELLS
        invariant forall j | CELLS * bucket <= j < CELLS * bucket + i :: tab[j].Full? ==> tab[j].key != key
      {
        var cell := tab[CELLS * bucket + i];
        if cell.Full? && key == cell.key {
          return Some(CELLS * bucket + i);
        }
      }
      return None;
    }

    /** `ckh_isearch` */
    method ISearch(key: K) returns (cell: Option<nat>)
      requires Valid()
      ensures cell.Some? <==> key in Map()
      ensures cell.Some? ==> cell.value < tab.Length && tab[cell.value] == Full(key, Map()[key])
    {
      assert key in at ==> Home(hash, Buckets(), key, at[key] / CELLS);
      cell := BucketSearch(hash(key).0 % Buckets(), key);
      if cell.None? {
        cell := BucketSearch(hash(key).1 % Buckets(), key);
      }
    }

    /** `ckh_search` */
    method Search(key: K) returns (data: Option<V>)
      requires Valid()
      ensures data == if key in Map() then Some(Map()[key]) else None
    {
      var cell := ISearch(key);
      data := if cell.Some? then Some(tab[cell.value].data) else None;
    }

    /** `ckh_count` */
    method Count() returns (n: nat)
      requires Valid()
      ensures n == |Map()|
    {
      NumIsSize(tab[..], at);
      assert Map().Keys == at.Keys && |Map()| == |Map().Keys| && |at| == |at.Keys|;
      return count;
    }

    /** A pseudo-random cell of a bucket. */
    method Draw() returns (i: nat)
      modifies this`draws
      ensures i < CELLS && draws == old(draws) + 1
    {
      i := random(draws) % CELLS;
      draws := draws + 1;
    }

    /** Stores an item into an empty cell. */
    method FillCell(c: nat, key: K, data: V)
      requires Valid() && c < tab.Length && tab[c].Empty? && key !in at && Home(hash, Buckets(), key, c / CELLS)
      modifies this`count, this`at, tab
      ensures Valid() && Map() == old(Map())[key := data]
    {
      PutCell(tab[..], at, c, key, data);
      HomedSet(tab[..], hash, Buckets(), c, Full(key, data));
      tab[c] := Full(key, data);
      assert tab[..] == old(tab[..])[c := Full(key, data)];
      at := at[key := c];
      count := count + 1;
    }

    /** `ckh_try_bucket_insert` */
    method TryBucketInsert(bucket: nat, key: K, data: V) returns (full: bool)
      requires Valid() && bucket < Buckets() && key !in at && Home(hash, Buckets(), key, bucket)
      modifies this`draws, this`count, this`at, tab
      ensures Valid()
      ensures !full ==> Map() == old(Map())[key := data]
      ensures full ==> tab[..] == old(tab[..]) && at == old(at) && BucketFull(tab[..], bucket)
      ensures draws == old(draws) + 1 && (BucketFull(old(tab[..]), bucket) ==> full)
    {
      var offset := Draw();
      for i := 0 to CELLS
        invariant Valid() && tab[..] == old(tab[..]) && at == old(at) && draws == old(draws) + 1
        invariant forall j | 0 <= j < i :: tab[Spot(bucket, offset, j)].Full?
      {
        var c := Spot(bucket, offset, i);
        if tab[c].Empty? {
          FillCell(c, key, data);
          return false;
        }
      }
      AllSpots(tab[..], bucket, offset);
      return true;
    }

    /** Puts an item into an occupied cell and takes out the one that was there. */
    method Evict(c: nat, key: K, data: V) returns (key': K, data': V)
      requires Valid() && c < tab.Length && tab[c].Full? && key !in at && Home(hash, Buckets(), key, c / CELLS)
      modifies this`at, tab
      ensures Valid() && key' !in at && Map()[key' := data'] == old(Map())[key := data]
      ensures tab[..] == old(tab[..])[c := Full(key, data)] && Home(hash, Buckets(), key', c / CELLS)
      ensures key' in old(at) && old(at)[key'] == c && at == (old(at) - {key'})[key := c]
    {
      SwapCell(tab[..], at, c, key, data);
      HomedSet(tab[..], hash, Buckets(), c, Full(key, data));
      key', data' := tab[c].key, tab[c].data;
      tab[c] := Full(key, data);
      assert tab[..] == old(tab[..])[c := Full(key, data)];
      at := (at - {key'})[key := c];
    }

    /** One eviction: the item thrown out, and the bucket it may go to. */
    method EvictOne(bucket: nat, key: K, data: V) returns (key': K, data': V, tbucket: nat)
      requires Valid() && bucket < Buckets() && key !in at && Home(hash, Buckets(), key, bucket) &&
        BucketFull(tab[..], bucket)
      modifies this`draws, this`at, tab
      ensures Valid() && key' !in at && Map()[key' := data'] == old(Map())[key := data] && draws == old(draws) + 1
      ensures tbucket < Buckets() && Home(hash, Buckets(), key', tbucket)
      ensures key' in old(at) && old(at)[key'] / CELLS == bucket && at == (old(at) - {key'})[key := old(at)[key']]
      ensures forall b | BucketFull(old(tab[..]), b) :: BucketFull(tab[..], b)
      ensures BucketFull(tab[..], tbucket) ==> NoRoom(tab[..], hash, Buckets(), key')
    {
      var i := Draw();
      key', data' := Evict(CELLS * bucket + i, key, data);
      tbucket := hash(key').1 % Buckets();
      if tbucket == bucket {
        tbucket := hash(key').0 % Buckets();
      }
      forall b | BucketFull(old(tab[..]), b) ensures BucketFull(tab[..], b) {
        StillFull(old(tab[..]), CELLS * bucket + i, Full(key, data), b);
      }
      if BucketFull(tab[..], tbucket) {
        BothFull(tab[..], hash, Buckets(), key', bucket);
      }
    }

    /** `ckh_evict_reloc_insert`: however the chain goes on, the table and the carried item lose nothing. */
    method EvictRelocInsert(argBucket: nat, argKey: K, argData: V) returns (out: Outcome<K, V>)
      requires Valid() && argBucket < Buckets() && argKey !in at && Home(hash, Buckets(), argKey, argBucket) &&
        NoRoom(tab[..], hash, Buckets(), argKey)
      modifies this`draws, this`count, this`at, tab
      ensures Valid()
      ensures out.Stored? ==> Map() == old(Map())[argKey := argData]
      ensures !out.Stored? ==> out.key !in at && Map()[out.key := out.data] == old(Map())[argKey := argData]
      ensures !out.Stored? ==> NoRoom(tab[..], hash, Buckets(), out.key)
      ensures out.Carried? ==> Home(hash, Buckets(), out.key, argBucket)
      ensures out.Carried? || (out.Running? && patience > 0) ==> argKey in Map()
      ensures draws >= old(draws) && (out.Running? ==> draws == old(draws) + 2 * patience)
    {
      var bucket: nat, key, data := argBucket, argKey, argData;
      for step := 0 to patience
        invariant Valid() && key !in at && Map()[key := data] == old(Map())[argKey := argData]
        invariant bucket < Buckets() && Home(hash, Buckets(), key, bucket) && BucketFull(tab[..], bucket)
        invariant step == 0 ==> key == argKey
        invariant BucketFull(tab[..], argBucket) && NoRoom(tab[..], hash, Buckets(), key)
        invariant draws == old(draws) + 2 * step
        invariant if step == 0 then bucket == argBucket
          else bucket != argBucket && argKey in at && at[argKey] / CELLS == argBucket
      {
        var tbucket;
        key, data, tbucket := EvictOne(bucket, key, data);
        if tbucket == argBucket {
          return Carried(key, data);
        }
        bucket := tbucket;
        var full := TryBucketInsert(bucket, key, data);
        if !full {
          return Stored;
        }
      }
      return Running(key, data);
    }

    /** `ckh_try_insert` */
    method TryInsert(key: K, data: V) returns (out: Outcome<K, V>)
      requires Valid() && key !in at
      modifies this`draws, this`count, this`at, tab
      ensures Valid()
      ensures out.Stored? ==> Map() == old(Map())[key := data]
      ensures !out.Stored? ==> out.key !in at && Map()[out.key := out.data] == old(Map())[key := data]
      ensures !out.Stored? ==> Crowds(old(Map()).Keys + {key}, lgCurBuckets)
      ensures out.Carried? || (out.Running? && patience > 0) ==> key in Map()
      ensures draws >= old(draws) && (out.Running? ==> draws >= old(draws) + 2 * patience)
    {
      var full := TryBucketInsert(hash(key).0 % Buckets(), key, data);
      if !full { return Stored; }
      full := TryBucketInsert(hash(key).1 % Buckets(), key, data);
      if !full { return Stored; }
      out := EvictRelocInsert(hash(key).1 % Buckets(), key, data);
      if !out.Stored? {
        ghost var keys := Map().Keys + {out.key};
        assert keys == Map()[out.key := out.data].Keys == old(Map())[key := data].Keys == old(Map()).Keys + {key};
        NoRoomCrowds(tab[..], at, hash, Buckets(), out.key, keys);
      }
    }

    // ---------- growing and shrinking ----------

    /** `ckh_rebuild`: every item of the old table into the new one, in the order of its cells. */
    method Rebuild(aTab: array<Cell<K, V>>, ghost at0: map<K, nat>) returns (st: Status)
      requires aTab != tab && Located(aTab[..], at0) && count == NumFull(aTab[..])
      requires tab.Length == CELLS * Buckets() && lgMinBuckets <= lgCurBuckets && at == map[] &&
        forall i | 0 <= i < tab.Length :: tab[i].Empty?
      modifies this`draws, this`count, this`at, tab
      ensures st.Done? ==> Valid() && Map() == MapOf(aTab[..], at0)
      ensures st.Failed? ==> count == old(count)
      ensures !st.Done? ==> Crowds(MapOf(aTab[..], at0).Keys, lgCurBuckets)
      ensures st.Unfinished? ==> Valid() && Within(Map(), MapOf(aTab[..], at0)) && draws >= old(draws) + 2 * patience
      ensures draws >= old(draws)
    {
      var total, i, nins := count, 0, 0;
      count := 0;
      NumEmpty(tab[..]);
      while nins < total
        invariant i <= aTab.Length && nins == NumFull(aTab[..i]) && aTab[..] == old(aTab[..]) && Valid()
        invariant Map() == MapBelow(aTab[..], at0, i) && draws >= old(draws)
        decreases aTab.Length - i
      {
        assert aTab[..i] == aTab[..][..i];
        MoreCells(aTab[..], i);
        MapBelowStep(aTab[..], at0, i);
        assert aTab[..i + 1] == aTab[..][..i + 1];
        if aTab[i].Full? {
          var out := TryInsert(aTab[i].key, aTab[i].data);
          if !out.Stored? {
            BelowCrowds(aTab[..], at0, i, hash, Buckets());
            BelowWithin(aTab[..], at0, i, Map(), out.key, out.data);
          }
          if out.Carried? {
            count := total;
            return Failed;
          } else if out.Running? {
            return Unfinished;
          }
          nins := nins + 1;
        }
        i := i + 1;
      }
      NumFullPrefix(aTab[..], i);
      assert aTab[..i] == aTab[..][..i];
      MapBelowAll(aTab[..], at0, i);
      return Done;
    }

    /** One attempt at a table of another size; where it fails the old table is back as it was. */
    method Retable(lgBuckets: nat, ghost m: map<K, V>) returns (st: Status)
      requires Valid() && Map() == m && lgMinBuckets <= lgBuckets
      modifies this`draws, this`count, this`at, this`tab, this`lgCurBuckets
      ensures tab == old(tab) || fresh(tab)
      ensures st.Done? ==> Valid() && Map() == m && lgCurBuckets == lgBuckets
      ensures st.Failed? ==> Valid() && Map() == m && Holds(old(tab), old(tab[..]), old(at), old(lgCurBuckets))
      ensures st.Unfinished? ==> Valid() && Within(Map(), m) && draws >= old(draws) + 2 * patience
      ensures !st.Done? ==> Crowds(m.Keys, lgBuckets)
      ensures st.Unfinished? ==> lgCurBuckets == lgBuckets
      ensures draws >= old(draws)
    {
      var newTab := new Cell<K, V>[CELLS * Pow2(lgBuckets)](_ => Empty);
      var aTab, prev := tab, lgCurBuckets;
      ghost var at0 := at;
      tab, lgCurBuckets := newTab, lgBuckets;
      at := map[];
      st := Rebuild(aTab, at0);
      if st.Failed? {
        tab, lgCurBuckets := aTab, prev;
        at := at0;
      }
    }

    /** Memory for a table of this size, if there is a size class for it. */
    method Ask(lgCells: nat) returns (ok: bool)
      modifies this`requests
      ensures ok ==> lgCells <= lgMaxCells && requests == old(requests) + 1 && granted(old(requests))
      ensures !ok ==> lgCells > lgMaxCells || Refused(old(requests))
      ensures requests >= old(requests)
    {
      if lgCells > lgMaxCells { return false; }
      ok := granted(requests);
      requests := requests + 1;
    }

    /** Asks for memory of this size; `again` if the items crowd it. */
    method Resize(lgCells: nat, ghost m: map<K, V>) returns (st: Status, again: bool)
      requires Valid() && Map() == m && lgCells >= lgMinBuckets + 2
      modifies this`draws, this`requests, this`count, this`at, this`tab, this`lgCurBuckets
      ensures tab == old(tab) || fresh(tab)
      ensures st.Done? ==> Valid() && Map() == m && lgCurBuckets == lgCells - 2 && lgCells <= lgMaxCells
      ensures st.Failed? ==> Valid() && Map() == m && Holds(old(tab), old(tab[..]), old(at), old(lgCurBuckets))
      ensures st.Unfinished? ==> Valid() && Within(Map(), m) && draws >= old(draws) + 2 * patience
      ensures again ==> st.Failed? && lgCells <= lgMaxCells && Crowds(m.Keys, lgCells - 2)
      ensures !again && st.Failed? ==> Refused(old(requests)) || lgCells > lgMaxCells
      ensures st.Unfinished? ==> lgCurBuckets == lgCells - 2 && lgCells <= lgMaxCells && Crowds(m.Keys, lgCurBuckets)
      ensures !st.Failed? ==> Met(old(requests))
      ensures draws >= old(draws) && requests >= old(requests)
    {
      var ok := Ask(lgCells);
      if ok {
        st := Retable(lgCells - 2, m);
        again := st.Failed?;
      } else {
        st, again := Failed, false;
      }
    }

    /** One turn of `ckh_grow`, where all smaller sizes are crowded; `again` if this one is too. */
    method GrowTurn(lgCells: nat, ghost m: map<K, V>, ghost low: nat) returns (st: Status, again: bool)
      requires Valid() && Map() == m && lgCells > lgCurBuckets + 2 && low == lgCurBuckets + 1
      requires CrowdsAll(m.Keys, low, lgCells - 2)
      modifies this`draws, this`requests, this`count, this`at, this`tab, this`lgCurBuckets
      ensures tab == old(tab) || fresh(tab)
      ensures st.Done? ==> Valid() && Map() == m && lgCurBuckets == lgCells - 2 && lgCells <= lgMaxCells
      ensures st.Failed? ==> Valid() && Map() == m && Holds(old(tab), old(tab[..]), old(at), old(lgCurBuckets))
      ensures st.Unfinished? ==> Valid() && Within(Map(), m) && draws >= old(draws) + 2 * patience
      ensures st.Unfinished? ==> lgCurBuckets == lgCells - 2 && lgCells <= lgMaxCells
      ensures again || st.Unfinished? ==> CrowdsAll(m.Keys, low, lgCells - 1)
      ensures again ==> st.Failed? && lgCells <= lgMaxCells
      ensures !again && st.Failed? ==> Refused(old(requests)) || lgCells > lgMaxCells
      ensures !st.Failed? ==> Met(old(requests))
      ensures draws >= old(draws) && requests >= old(requests)
    {
      st, again := Resize(lgCells, m);
      if again || st.Unfinished? { CrowdsNext(m.Keys, low, lgCells - 2); }
    }

    /** `ckh_grow` */
    method Grow(ghost m: map<K, V>) returns (st: Status)
      requires Valid() && Map() == m
      modifies this`draws, this`requests, this`count, this`at, this`tab, this`lgCurBuckets
      ensures tab == old(tab) || fresh(tab)
      ensures st.Done? ==> Valid() && Map() == m && old(lgCurBuckets) < lgCurBuckets && lgCurBuckets + 2 <= lgMaxCells
      ensures st.Failed? ==> Valid() && Map() == m && Holds(old(tab), old(tab[..]), old(at), old(lgCurBuckets))
      ensures st.Done? ==> CrowdsAll(m.Keys, old(lgCurBuckets) + 1, lgCurBuckets)
      ensures st.Failed? && !Refused(old(requests)) ==> CrowdsAll(m.Keys, old(lgCurBuckets) + 1, lgMaxCells - 1)
      ensures st.Unfinished? ==> Valid() && Within(Map(), m) && draws >= old(draws) + 2 * patience
      ensures st.Unfinished? ==> old(lgCurBuckets) < lgCurBuckets && lgCurBuckets + 2 <= lgMaxCells
      ensures st.Unfinished? ==> CrowdsAll(m.Keys, old(lgCurBuckets) + 1, lgCurBuckets + 1)
      ensures !st.Failed? ==> Met(old(requests))
      ensures draws >= old(draws) && requests >= old(requests)
    {
      var lgCurCells := lgCurBuckets + 2;
      ghost var low := lgCurBuckets + 1;
      while true
        invariant Valid() && Map() == m && Holds(old(tab), old(tab[..]), old(at), old(lgCurBuckets))
        invariant lgCurCells >= lgCurBuckets + 2 && draws >= old(draws) && requests >= old(requests)
        invariant CrowdsAll(m.Keys, low, lgCurCells - 1)
        decreases lgMaxCells - lgCurCells
      {
        lgCurCells := lgCurCells + 1;
        var again;
        st, again := GrowTurn(lgCurCells, m, low);
        if !again { return; }
      }
    }

    /** `ckh_shrink`; failing to shrink is no error. */
    method Shrink(ghost m: map<K, V>) returns (st: Status)
      requires Valid() && Map() == m && lgCurBuckets > lgMinBuckets
      modifies this`draws, this`requests, this`count, this`at, this`tab, this`lgCurBuckets
      ensures tab == old(tab) || fresh(tab)
      ensures st.Done? ==> Valid() && Map() == m
      ensures st.Done? ==> lgCurBuckets == old(lgCurBuckets) - 1 || lgCurBuckets == old(lgCurBuckets)
      ensures st.Done? && lgCurBuckets == old(lgCurBuckets) ==> NoSmaller(m.Keys, old(requests))
      ensures st.Unfinished? ==> Valid() && Within(Map(), m) && draws >= old(draws) + 2 * patience
      ensures st.Unfinished? ==> lgCurBuckets == old(lgCurBuckets) - 1 && Crowds(m.Keys, lgCurBuckets)
      ensures lgCurBuckets != old(lgCurBuckets) ==> Met(old(requests))
      ensures !st.Failed?
    {
      var lgCurCells := lgCurBuckets + 2 - 1;
      var again;
      st, again := Resize(lgCurCells, m);
      if st.Failed? {
        assert lgCurBuckets == old(lgCurBuckets) && NoSmaller(m.Keys, old(requests));
        st := Done;
      }
    }

    // ---------- the interface ----------

    /** Grows for a table that lacks an item of `target`, which crowds the sizes from `low` to the present one. */
    method GrowOn(ghost target: map<K, V>, ghost low: nat) returns (st: Status)
      requires Valid() && Within(Map(), target) && low <= lgCurBuckets && CrowdsAll(target.Keys, low, lgCurBuckets + 1)
      modifies this`draws, this`requests, this`count, this`at, this`tab, this`lgCurBuckets
      ensures tab == old(tab) || fresh(tab)
      ensures st.Done? ==>
        Valid() && Map() == old(Map()) && old(lgCurBuckets) < lgCurBuckets && lgCurBuckets + 2 <= lgMaxCells
      ensures st.Done? ==> CrowdsAll(target.Keys, low, lgCurBuckets)
      ensures st.Failed? ==> Valid() && Map() == old(Map())
      ensures st.Failed? && !Refused(old(requests)) ==> CrowdsAll(target.Keys, low, lgMaxCells - 1)
      ensures st.Unfinished? ==> Valid() && Within(Map(), target) && draws >= old(draws) + 2 * patience
      ensures st.Unfinished? ==> low <= lgCurBuckets && CrowdsAll(target.Keys, low, lgCurBuckets + 1)
      ensures draws >= old(draws) && requests >= old(requests)
    {
      ghost var held, mid := Map(), lgCurBuckets + 1;
      st := Grow(held);
      if st.Done? {
        CrowdsOn(held.Keys, target.Keys, low, mid, lgCurBuckets);
      } else if st.Unfinished? {
        WithinTrans(Map(), held, target);
        CrowdsOn(held.Keys, target.Keys, low, mid, lgCurBuckets + 1);
      } else if !Refused(old(requests)) {
        CrowdsOn(held.Keys, target.Keys, low, mid, lgMaxCells - 1);
      }
    }

    /** The table lacks just this item of `target`, which crowds the sizes from `2^low` up to the present one. */
    ghost predicate Lacks(target: map<K, V>, key: K, data: V, low: nat)
      reads this`tab, this`at, this`count, this`lgMinBuckets, this`lgCurBuckets, tab
    {
      && Valid() && key !in Map() && Map()[key := data] == target
      && low <= lgCurBuckets && CrowdsAll(target.Keys, low, lgCurBuckets)
    }

    /** One turn of `ckh_insert`; another is due in a larger table. */
    method InsertRound(argKey: K, argData: V, ghost target: map<K, V>, ghost low: nat)
      returns (st: Status, again: bool, key: K, data: V)
      requires Lacks(target, argKey, argData, low)
      modifies this`draws, this`requests, this`count, this`at, this`tab, this`lgCurBuckets, tab
      ensures tab == old(tab) || fresh(tab)
      ensures again ==>
        Lacks(target, key, data, low) && old(lgCurBuckets) < lgCurBuckets && lgCurBuckets + 2 <= lgMaxCells
      ensures !again && st.Done? ==> Valid() && Map() == target && CrowdsAll(target.Keys, low, lgCurBuckets)
      ensures !again && st.Failed? ==> Valid() && key !in Map() && Map()[key := data] == target
      ensures !again && st.Failed? && !Refused(old(requests)) ==> CrowdsAll(target.Keys, low, lgMaxCells - 1)
      ensures again || !st.Done? ==> Crowds(target.Keys, low)
      ensures !again && st.Unfinished? ==> Valid() && Within(Map(), target) && draws >= old(draws) + 2 * patience
      ensures !again && st.Unfinished? ==> low <= lgCurBuckets && CrowdsAll(target.Keys, low, lgCurBuckets + 1)
      ensures draws >= old(draws) && requests >= old(requests)
    {
      CarriedWithin(Map(), argKey, argData, target);
      var out := TryInsert(argKey, argData);
      if out.Stored? { return Done, false, argKey, argData; }
      key, data := out.key, out.data;
      CarriedWithin(Map(), key, data, target);
      CrowdsNext(target.Keys, low, lgCurBuckets);
      if out.Running? { return Unfinished, false, key, data; }
      assert Crowds(target.Keys, low);
      st := GrowOn(target, low);
      again := st.Done?;
    }

    /**
      `ckh_insert`. Where memory runs out after an eviction the table holds the new item, and `lost`,
      the item then carried, is the one missing.
     */
    method Insert(argKey: K, argData: V) returns (st: Status, ghost lost: (K, V))
      requires Valid() && argKey !in Map()
      modifies this`draws, this`requests, this`count, this`at, this`tab, this`lgCurBuckets, tab
      ensures st.Done? ==> Valid() && Map() == old(Map())[argKey := argData]
      ensures st.Failed? ==> Valid() && lost.0 !in Map() && Map()[lost.0 := lost.1] == old(Map())[argKey := argData]
      ensures st.Failed? && !Refused(old(requests)) ==>
        CrowdsAll(old(Map()).Keys + {argKey}, old(lgCurBuckets), lgMaxCells - 1)
      ensures st.Done? ==> CrowdsAll(old(Map()).Keys + {argKey}, old(lgCurBuckets), lgCurBuckets)
      ensures st.Unfinished? ==>
        Valid() && Within(Map(), old(Map())[argKey := argData]) && draws >= old(draws) + 2 * patience
      ensures st.Unfinished? ==>
        old(lgCurBuckets) <= lgCurBuckets && CrowdsAll(old(Map()).Keys + {argKey}, old(lgCurBuckets), lgCurBuckets + 1)
      ensures !st.Done? ==> Crowds(old(Map()).Keys + {argKey}, old(lgCurBuckets))
      ensures tab == old(tab) || fresh(tab)
    {
      var key, data := argKey, argData;
      ghost var target := old(Map())[argKey := argData];
      assert target.Keys == old(Map()).Keys + {argKey};
      while true
        invariant Lacks(target, key, data, old(lgCurBuckets)) && (tab == old(tab) || fresh(tab))
        invariant draws >= old(draws) && requests >= old(requests)
        decreases lgMaxCells - lgCurBuckets
      {
        var again;
        st, again, key, data := InsertRound(key, data, target, old(lgCurBuckets));
        lost := (key, data);
        if !again { return; }
      }
    }

    /** Empties an occupied cell. */
    method EmptyCell(c: nat) returns (key: K, data: V)
      requires Valid() && c < tab.Length && tab[c].Full?
      modifies this`count, this`at, tab
      ensures Valid() && old(tab[c]) == Full(key, data) && Map() == old(Map()) - {key} && count == old(count) - 1
    {
      ClearCell(tab[..], at, c);
      HomedSet(tab[..], hash, Buckets(), c, Empty);
      key, data := tab[c].key, tab[c].data;
      tab[c] := Empty;
      assert tab[..] == old(tab[..])[c := Empty];
      at := at - {key};
      count := count - 1;
    }

    /** `ckh_remove` */
    method Remove(searchKey: K) returns (found: Option<(K, V)>, st: Status)
      requires Valid()
      modifies this`draws, this`requests, this`count, this`at, this`tab, this`lgCurBuckets, tab
      ensures found == if searchKey in old(Map()) then Some((searchKey, old(Map())[searchKey])) else None
      ensures st.Done? ==> Valid() && Map() == old(Map()) - {searchKey}
      ensures st.Unfinished? ==>
        Valid() && Within(Map(), old(Map()) - {searchKey}) && draws >= old(draws) + 2 * patience
      ensures !st.Failed?
      ensures st.Unfinished? ==>
        lgCurBuckets == old(lgCurBuckets) - 1 && Crowds((old(Map()) - {searchKey}).Keys, lgCurBuckets)
      ensures if found.Some? && old(count) - 1 < old(Buckets()) && old(lgCurBuckets) > lgMinBuckets
        then st.Done? ==> lgCurBuckets == old(lgCurBuckets) - 1 ||
                          (lgCurBuckets == old(lgCurBuckets) && NoSmaller(Map().Keys, old(requests)))
        else st.Done? && lgCurBuckets == old(lgCurBuckets)
      ensures tab == old(tab) || fresh(tab)
    {
      st := Done;
      var cell := ISearch(searchKey);
      if cell.None? {
        assert Map() == Map() - {searchKey};
        return None, Done;
      }
      var key, data := EmptyCell(cell.value);
      found := Some((key, data));
      if count < Buckets() && lgCurBuckets > lgMinBuckets {
        st := Shrink(Map());
      }
    }
  }
}
