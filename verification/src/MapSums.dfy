/** Sums over the entries of a map. */
module MapSums {

  ghost function Sum(m: map<nat, nat>): nat {
    if m == map[] then 0 else
    var k :| k in m;
    m[k] + Sum(m - {k})
  }

  lemma {:induction false} SumOut(m: map<nat, nat>, k: nat)
    requires k in m
    ensures Sum(m) == m[k] + Sum(m - {k})
  {
    var j :| j in m && Sum(m) == m[j] + Sum(m - {j});
    if j != k {
      SumOut(m - {j}, k);
      SumOut(m - {k}, j);
      assert m - {j} - {k} == m - {k} - {j};
    }
  }

  /** The entry for `k`, or zero. */
  ghost function Entry(m: map<nat, nat>, k: nat): nat {
    if k in m then m[k] else 0
  }

  lemma SumSet(m: map<nat, nat>, k: nat, v: nat)
    ensures Sum(m[k := v]) + Entry(m, k) == Sum(m) + v
  {
    SumOut(m[k := v], k);
    assert m[k := v] - {k} == m - {k};
    if k in m { SumOut(m, k); } else { assert m - {k} == m; }
  }

  lemma SumAtLeast(m: map<nat, nat>, k: nat)
    ensures Entry(m, k) <= Sum(m)
  {
    if k in m { SumOut(m, k); }
  }

  lemma {:induction false} SumZero(m: map<nat, nat>)
    requires forall k | k in m :: m[k] == 0
    ensures Sum(m) == 0
  {
    if m != map[] {
      var k :| k in m;
      SumOut(m, k);
      SumZero(m - {k});
    }
  }
}
