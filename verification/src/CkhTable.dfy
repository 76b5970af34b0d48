/**
  The cell table of the cuckoo hash as a value. A ghost index `at` leads from each stored key to its
  one cell, so that the map a table holds, and what one store does to it, can be stated directly.
 */
module CkhTable {

  /** `2^LG_CKH_BUCKET_CELLS` */
  const CELLS: nat := 4

  /** `ckhc_t`; an empty cell has a NULL key. */
  datatype Cell<K, V> = Empty | Full(key: K, data: V)

  /** The occupied cells. */
  function NumFull<K, V>(s: seq<Cell<K, V>>): nat {
    if s == [] then 0 else NumFull(s[..|s| - 1]) + if s[|s| - 1].Full? then 1 else 0
  }

  /** `at` leads to every occupied cell, and each key has one cell. */
  ghost predicate Located<K, V>(s: seq<Cell<K, V>>, at: map<K, nat>) {
    && (forall k | k in at :: at[k] < |s| && s[at[k]].Full? && s[at[k]].key == k)
    && (forall i | 0 <= i < |s| && s[i].Full? :: s[i].key in at && at[s[i].key] == i)
  }

  ghost function MapOf<K, V>(s: seq<Cell<K, V>>, at: map<K, nat>): map<K, V>
    requires Located(s, at)
  {
    map k | k in at :: s[at[k]].data
  }

  /** `b` is one of the two buckets of `k` in a table of `n` buckets. */
  predicate Home<K>(hash: K -> (nat, nat), n: nat, k: K, b: nat)
    requires n > 0
  {
    b == hash(k).0 % n || b == hash(k).1 % n
  }

  /** Every item sits in one of its two buckets. */
  ghost predicate Homed<K, V>(s: seq<Cell<K, V>>, hash: K -> (nat, nat), n: nat)
    requires n > 0
  {
    forall i | 0 <= i < |s| && s[i].Full? :: Home(hash, n, s[i].key, i / CELLS)
  }

  ghost predicate BucketFull<K, V>(s: seq<Cell<K, V>>, b: nat) {
    CELLS * b + CELLS <= |s| && forall i | CELLS * b <= i < CELLS * b + CELLS :: s[i].Full?
  }

  // ---------- when items have no room ----------

  /** The keys among `keys` that may sit in bucket `b`. */
  ghost function Homers<K>(keys: set<K>, hash: K -> (nat, nat), n: nat, b: nat): set<K>
    requires n > 0
  {
    set k | k in keys && Home(hash, n, k, b)
  }

  /** Some key's two buckets are each home to as many other keys as a bucket holds. */
  ghost predicate Crowded<K>(keys: set<K>, hash: K -> (nat, nat), n: nat)
    requires n > 0
  {
    exists k {:trigger CrowdedOut(keys, hash, n, k)} | k in keys :: CrowdedOut(keys, hash, n, k)
  }

  ghost predicate CrowdedOut<K>(keys: set<K>, hash: K -> (nat, nat), n: nat, k: K)
    requires n > 0
  {
    && |Homers(keys - {k}, hash, n, hash(k).0 % n)| >= CELLS
    && |Homers(keys - {k}, hash, n, hash(k).1 % n)| >= CELLS
  }

  /** Both buckets of `k` are full. */
  ghost predicate NoRoom<K, V>(s: seq<Cell<K, V>>, hash: K -> (nat, nat), n: nat, k: K)
    requires n > 0
  {
    BucketFull(s, hash(k).0 % n) && BucketFull(s, hash(k).1 % n)
  }

  lemma {:induction false} FewerKeys<T>(a: set<T>, b: set<T>)
    requires a <= b
    ensures |a| <= |b|
  {
    if a != {} {
      var x :| x in a;
      FewerKeys(a - {x}, b - {x});
    }
  }

  /** More keys are no less crowded. */
  lemma CrowdedMore<K>(keys: set<K>, keys': set<K>, hash: K -> (nat, nat), n: nat)
    requires n > 0 && Crowded(keys, hash, n) && keys <= keys'
    ensures Crowded(keys', hash, n)
  {
    var k :| k in keys && CrowdedOut(keys, hash, n, k);
    FewerKeys(Homers(keys - {k}, hash, n, hash(k).0 % n), Homers(keys' - {k}, hash, n, hash(k).0 % n));
    FewerKeys(Homers(keys - {k}, hash, n, hash(k).1 % n), Homers(keys' - {k}, hash, n, hash(k).1 % n));
    assert k in keys' && CrowdedOut(keys', hash, n, k);
  }

  /** A full bucket is home to as many stored keys as it has cells. */
  lemma FullHomers<K, V>(s: seq<Cell<K, V>>, at: map<K, nat>, hash: K -> (nat, nat), n: nat, b: nat, keys: set<K>)
    requires n > 0 && Located(s, at) && Homed(s, hash, n) && BucketFull(s, b) && at.Keys <= keys
    ensures |Homers(keys, hash, n, b)| >= CELLS
  {
    var i := CELLS * b;
    var four := {s[i].key, s[i + 1].key, s[i + 2].key, s[i + 3].key};
    assert at[s[i].key] == i && at[s[i + 1].key] == i + 1 && at[s[i + 2].key] == i + 2 && at[s[i + 3].key] == i + 3;
    assert |four| == 4;
    assert i / CELLS == b && (i + 1) / CELLS == b && (i + 2) / CELLS == b && (i + 3) / CELLS == b;
    FewerKeys(four, Homers(keys, hash, n, b));
  }

  /** An item that finds both its buckets full, with the stored ones, crowds any table of that size. */
  lemma NoRoomCrowds<K, V>(s: seq<Cell<K, V>>, at: map<K, nat>, hash: K -> (nat, nat), n: nat, k: K, keys: set<K>)
    requires n > 0 && Located(s, at) && Homed(s, hash, n) && NoRoom(s, hash, n, k) && k !in at
    requires at.Keys <= keys && k in keys
    ensures Crowded(keys, hash, n)
  {
    FullHomers(s, at, hash, n, hash(k).0 % n, keys - {k});
    FullHomers(s, at, hash, n, hash(k).1 % n, keys - {k});
    assert CrowdedOut(keys, hash, n, k);
  }

  /** Nothing in `m` but what is in `m'`. */
  ghost predicate Within<K, V>(m: map<K, V>, m': map<K, V>) {
    m.Keys <= m'.Keys && forall k | k in m :: m[k] == m'[k]
  }

  /** Without the carried item a table holds nothing else. */
  lemma CarriedWithin<K, V>(m: map<K, V>, k: K, v: V, m': map<K, V>)
    requires k !in m && m[k := v] == m'
    ensures Within(m, m') && m.Keys + {k} == m'.Keys
  {
    forall x | x in m ensures x in m' && m[x] == m'[x] {
      assert m[x] == m[k := v][x];
    }
  }

  lemma WithinTrans<K, V>(m: map<K, V>, m1: map<K, V>, m2: map<K, V>)
    requires Within(m, m1) && Within(m1, m2)
    ensures Within(m, m2)
  {
  }

  /** The last cell left out. */
  lemma LocatedPrefix<K, V>(s: seq<Cell<K, V>>, at: map<K, nat>)
    requires Located(s, at) && s != []
    ensures var n := |s| - 1; Located(s[..n], if s[n].Full? then at - {s[n].key} else at)
  {
  }

  /** The occupied cells are as many as the keys. */
  lemma {:induction false} NumIsSize<K, V>(s: seq<Cell<K, V>>, at: map<K, nat>)
    requires Located(s, at)
    ensures NumFull(s) == |at|
  {
    if s == [] {
      assert at.Keys == {};
    } else {
      var n := |s| - 1;
      LocatedPrefix(s, at);
      if s[n].Full? {
        var rest := at - {s[n].key};
        NumIsSize(s[..n], rest);
        KeyOut(at, s[n].key);
      } else {
        NumIsSize(s[..n], at);
      }
    }
  }

  lemma KeyOut<K, V>(m: map<K, V>, k: K)
    requires k in m
    ensures |m| == |m - {k}| + 1
  {
    assert m.Keys == (m - {k}).Keys + {k} && |m| == |m.Keys| && |m - {k}| == |(m - {k}).Keys|;
  }

  /** A full bucket stays full when a cell is stored into. */
  lemma StillFull<K, V>(s: seq<Cell<K, V>>, i: nat, c: Cell<K, V>, b: nat)
    requires i < |s| && c.Full? && BucketFull(s, b)
    ensures BucketFull(s[i := c], b)
  {
  }

  /** The bucket of `k` that is not `b`, if it has another. */
  function Other<K>(hash: K -> (nat, nat), n: nat, k: K, b: nat): (r: nat)
    requires n > 0
    ensures r < n && Home(hash, n, k, r)
  {
    if hash(k).1 % n == b then hash(k).0 % n else hash(k).1 % n
  }

  lemma BothFull<K, V>(s: seq<Cell<K, V>>, hash: K -> (nat, nat), n: nat, k: K, b: nat)
    requires n > 0 && Home(hash, n, k, b) && BucketFull(s, b) && BucketFull(s, Other(hash, n, k, b))
    ensures NoRoom(s, hash, n, k)
  {
  }

  // ---------- one store ----------

  lemma {:induction false} NumFullSet<K, V>(s: seq<Cell<K, V>>, i: nat, c: Cell<K, V>)
    requires i < |s|
    ensures NumFull(s[i := c]) + (if s[i].Full? then 1 else 0) == NumFull(s) + if c.Full? then 1 else 0
  {
    var n := |s| - 1;
    if i == n {
      assert s[i := c][..n] == s[..n];
    } else {
      assert s[i := c][..n] == s[..n][i := c];
      NumFullSet(s[..n], i, c);
    }
  }

  lemma PutCell<K, V>(s: seq<Cell<K, V>>, at: map<K, nat>, i: nat, k: K, v: V)
    requires Located(s, at) && i < |s| && s[i].Empty? && k !in at
    ensures Located(s[i := Full(k, v)], at[k := i]) && MapOf(s[i := Full(k, v)], at[k := i]) == MapOf(s, at)[k := v]
    ensures NumFull(s[i := Full(k, v)]) == NumFull(s) + 1
  {
    NumFullSet(s, i, Full(k, v));
  }

  /** The item in cell `i` taken out. */
  lemma ClearCell<K, V>(s: seq<Cell<K, V>>, at: map<K, nat>, i: nat)
    requires Located(s, at) && i < |s| && s[i].Full?
    ensures s[i].key in at && Located(s[i := Empty], at - {s[i].key}) &&
      MapOf(s[i := Empty], at - {s[i].key}) == MapOf(s, at) - {s[i].key}
    ensures MapOf(s, at)[s[i].key] == s[i].data && NumFull(s[i := Empty]) + 1 == NumFull(s)
  {
    NumFullSet(s, i, Empty);
  }

  /** An eviction: table and carried item together hold the same as before. */
  lemma SwapCell<K, V>(s: seq<Cell<K, V>>, at: map<K, nat>, i: nat, k: K, v: V)
    requires Located(s, at) && i < |s| && s[i].Full? && k !in at
    ensures var s', at' := s[i := Full(k, v)], (at - {s[i].key})[k := i];
      && Located(s', at') && s[i].key !in at' && MapOf(s', at')[s[i].key := s[i].data] == MapOf(s, at)[k := v]
      && NumFull(s') == NumFull(s)
  {
    var e := s[i := Empty];
    ClearCell(s, at, i);
    PutCell(e, at - {s[i].key}, i, k, v);
    assert e[i := Full(k, v)] == s[i := Full(k, v)];
  }

  lemma HomedSet<K, V>(s: seq<Cell<K, V>>, hash: K -> (nat, nat), n: nat, i: nat, c: Cell<K, V>)
    requires n > 0 && Homed(s, hash, n) && i < |s| && (c.Full? ==> Home(hash, n, c.key, i / CELLS))
    ensures Homed(s[i := c], hash, n)
  {
  }

  // ---------- prefixes, for a rebuild ----------

  lemma {:induction false} NumFullPrefix<K, V>(s: seq<Cell<K, V>>, i: nat)
    requires i <= |s|
    ensures NumFull(s[..i]) <= NumFull(s)
    ensures NumFull(s[..i]) == NumFull(s) ==> forall j | i <= j < |s| :: s[j].Empty?
  {
    if i < |s| {
      var t := s[..|s| - 1];
      assert s[..i] == t[..i];
      NumFullPrefix(t, i);
    } else {
      assert s[..i] == s;
    }
  }

  /** Items are left, so cells are. */
  lemma MoreCells<K, V>(s: seq<Cell<K, V>>, i: nat)
    requires i <= |s| && NumFull(s[..i]) < NumFull(s)
    ensures i < |s|
  {
    assert s[..|s|] == s;
  }

  /** The items of the first `i` cells. */
  ghost function MapBelow<K, V>(s: seq<Cell<K, V>>, at: map<K, nat>, i: nat): map<K, V>
    requires Located(s, at)
  {
    map k | k in at && at[k] < i :: s[at[k]].data
  }

  lemma MapBelowStep<K, V>(s: seq<Cell<K, V>>, at: map<K, nat>, i: nat)
    requires Located(s, at) && i < |s|
    ensures NumFull(s[..i + 1]) == NumFull(s[..i]) + if s[i].Full? then 1 else 0
    ensures MapBelow(s, at, i + 1) == if s[i].Full? then MapBelow(s, at, i)[s[i].key := s[i].data]
      else MapBelow(s, at, i)
    ensures s[i].Full? ==> s[i].key !in MapBelow(s, at, i)
  {
    assert s[..i + 1][..i] == s[..i];
  }

  lemma MapBelowAll<K, V>(s: seq<Cell<K, V>>, at: map<K, nat>, i: nat)
    requires Located(s, at) && i <= |s| && NumFull(s[..i]) == NumFull(s)
    ensures MapBelow(s, at, i) == MapOf(s, at)
  {
    NumFullPrefix(s, i);
  }

  /** Items that crowd the new table half way crowd it all together. */
  lemma BelowCrowds<K, V>(s: seq<Cell<K, V>>, at: map<K, nat>, i: nat, hash: K -> (nat, nat), n: nat)
    requires n > 0 && Located(s, at) && i < |s| && s[i].Full?
    requires Crowded(MapBelow(s, at, i).Keys + {s[i].key}, hash, n)
    ensures Crowded(MapOf(s, at).Keys, hash, n)
  {
    CrowdedMore(MapBelow(s, at, i).Keys + {s[i].key}, MapOf(s, at).Keys, hash, n);
  }

  lemma BelowWithin<K, V>(s: seq<Cell<K, V>>, at: map<K, nat>, i: nat, m: map<K, V>, k: K, v: V)
    requires Located(s, at) && i < |s| && s[i].Full? && k !in m
    requires m[k := v] == MapBelow(s, at, i)[s[i].key := s[i].data]
    ensures Within(m, MapOf(s, at))
  {
    MapBelowStep(s, at, i);
    CarriedWithin(m, k, v, MapBelow(s, at, i + 1));
    WithinTrans(m, MapBelow(s, at, i + 1), MapOf(s, at));
  }

  lemma {:induction false} NumEmpty<K, V>(s: seq<Cell<K, V>>)
    requires forall i | 0 <= i < |s| :: s[i].Empty?
    ensures NumFull(s) == 0
  {
    if s != [] { NumEmpty(s[..|s| - 1]); }
  }

  /** The `j`th cell of bucket `b`, counted round from `offset`. */
  function Spot(b: nat, offset: nat, j: nat): nat {
    CELLS * b + (j + offset) % CELLS
  }

  /** Going round a bucket from any offset visits all its cells. */
  lemma AllSpots<K, V>(s: seq<Cell<K, V>>, b: nat, offset: nat)
    requires offset < CELLS && CELLS * b + CELLS <= |s| && forall j | 0 <= j < CELLS :: s[Spot(b, offset, j)].Full?
    ensures BucketFull(s, b)
  {
    forall i | CELLS * b <= i < CELLS * b + CELLS ensures s[i].Full? {
      var j := (i - CELLS * b + CELLS - offset) % CELLS;
      assert Spot(b, offset, j) == i;
    }
  }
}
