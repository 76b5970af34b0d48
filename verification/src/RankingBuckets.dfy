/** The ranking as a list of buckets: how much memory has each quantified hotness. */
module RankingBuckets {
  import opened AvlOrder
  import opened AvlWeight

  /** `AggregatedHotness` */
  datatype Agg = Agg(size: nat, q: real)

  predicate IsHotter(a: Agg, b: Agg) { a.q > b.q }

  /** Entries hottest first, one for each hotness, none of size zero, each weighted by its size. */
  ghost predicate Tidy(s: seq<(Agg, nat)>) {
    && (forall i | 0 <= i < |s| :: s[i].0.size > 0 && s[i].1 == s[i].0.size)
    && (forall i, j | 0 <= i < j < |s| :: s[i].0.q > s[j].0.q)
  }

  /** The memory recorded under a quantified hotness. */
  ghost function Bucket(s: seq<(Agg, nat)>, q: real): nat {
    if s == [] then 0 else (if s[0].0.q == q then s[0].0.size else 0) + Bucket(s[1..], q)
  }

  /** `s'` has `n` more than `s` under `q`, and nothing else is different. */
  ghost predicate Added(s: seq<(Agg, nat)>, s': seq<(Agg, nat)>, q: real, n: nat) {
    (forall p :: Bucket(s', p) == Bucket(s, p) + if p == q then n else 0) && Total(s') == Total(s) + n
  }

  lemma {:induction false} BucketJoin(a: seq<(Agg, nat)>, b: seq<(Agg, nat)>, q: real)
    ensures Bucket(a + b, q) == Bucket(a, q) + Bucket(b, q)
  {
    if a == [] {
      assert a + b == b;
    } else {
      assert (a + b)[0] == a[0] && (a + b)[1..] == a[1..] + b;
      BucketJoin(a[1..], b, q);
    }
  }

  lemma {:induction false} BucketEmpty(s: seq<(Agg, nat)>, q: real)
    requires forall i | 0 <= i < |s| :: s[i].0.q != q
    ensures Bucket(s, q) == 0
  {
    if s != [] { BucketEmpty(s[1..], q); }
  }

  /** An element taken out of, or put into, the middle. */
  lemma MiddleBucket(a: seq<(Agg, nat)>, e: (Agg, nat), c: seq<(Agg, nat)>, q: real)
    ensures Bucket(a + [e] + c, q) == Bucket(a + c, q) + if e.0.q == q then e.0.size else 0
    ensures Total(a + [e] + c) == Total(a + c) + e.1
  {
    BucketJoin(a + [e], c, q);
    BucketJoin(a, [e], q);
    BucketJoin(a, c, q);
    TotalJoin(a + [e], c);
    TotalJoin(a, [e]);
    TotalJoin(a, c);
  }

  lemma TidyOut(a: seq<(Agg, nat)>, e: (Agg, nat), c: seq<(Agg, nat)>)
    requires Tidy(a + [e] + c)
    ensures Tidy(a + c) && (forall i | 0 <= i < |a + c| :: (a + c)[i].0.q != e.0.q) && e.1 == e.0.size > 0
  {
    var s, s' := a + [e] + c, a + c;
    assert s[|a|] == e;
    forall i | 0 <= i < |s'| ensures s'[i].0.q != e.0.q && s'[i].0.size > 0 && s'[i].1 == s'[i].0.size {
      assert s'[i] == s[if i < |a| then i else i + 1];
    }
    forall i, j | 0 <= i < j < |s'| ensures s'[i].0.q > s'[j].0.q {
      assert s'[i] == s[if i < |a| then i else i + 1] && s'[j] == s[if j < |a| then j else j + 1];
    }
  }

  lemma TidyIn(a: seq<(Agg, nat)>, e: (Agg, nat), c: seq<(Agg, nat)>)
    requires Tidy(a + c) && e.1 == e.0.size > 0
    requires (forall i | 0 <= i < |a| :: a[i].0.q > e.0.q) && (forall i | 0 <= i < |c| :: c[i].0.q < e.0.q)
    ensures Tidy(a + [e] + c)
  {
    var s, s' := a + c, a + [e] + c;
    assert s'[|a|] == e;
    forall i | 0 <= i < |s'| ensures s'[i].0.size > 0 && s'[i].1 == s'[i].0.size {
      if i != |a| { assert s'[i] == s[if i < |a| then i else i - 1]; }
    }
    forall i, j | 0 <= i < j < |s'| ensures s'[i].0.q > s'[j].0.q {
      if i != |a| { assert s'[i] == s[if i < |a| then i else i - 1]; }
      if j != |a| { assert s'[j] == s[if j < |a| then j else j - 1]; }
      if i == |a| { assert s'[j] == c[j - |a| - 1]; }
      if j == |a| { assert s'[i] == a[i]; }
    }
  }

  /** `wre_remove` by hotness takes out the whole bucket. */
  lemma RemoveBucket(s: seq<(Agg, nat)>, s': seq<(Agg, nat)>, d: Agg, found: Agg)
    requires Tidy(s) && Removed(IsHotter, s, s', d, found)
    ensures Tidy(s') && found.q == d.q && found.size > 0 && found.size == Bucket(s, d.q) &&
      Total(s) == Total(s') + found.size
    ensures forall q :: Bucket(s', q) == if q == d.q then 0 else Bucket(s, q)
    ensures forall i | 0 <= i < |s'| :: s'[i].0.q != d.q
  {
    var k :| 0 <= k < |s| && RemovedAt(IsHotter, s, s', d, found, k);
    var a, e, c := s[..k], s[k], s[k + 1..];
    assert s == a + [e] + c && s' == a + c;
    TidyOut(a, e, c);
    BucketEmpty(s', d.q);
    forall q ensures Bucket(s', q) == if q == d.q then 0 else Bucket(s, q) {
      MiddleBucket(a, e, c, q);
    }
    MiddleBucket(a, e, c, d.q);
  }

  /** No entry of that hotness. */
  lemma NoBucket(s: seq<(Agg, nat)>, d: Agg)
    requires forall i | 0 <= i < |s| :: !Equal(IsHotter, s[i].0, d)
    ensures Bucket(s, d.q) == 0 && forall i | 0 <= i < |s| :: s[i].0.q != d.q
  {
    forall i | 0 <= i < |s| ensures s[i].0.q != d.q {
      assert !Equal(IsHotter, s[i].0, d);
    }
    BucketEmpty(s, d.q);
  }

  /** `wre_put` of a hotness that is not there adds its bucket. */
  lemma PutBucket(s: seq<(Agg, nat)>, s': seq<(Agg, nat)>, d: Agg)
    requires Tidy(s) && Inserted(IsHotter, s, s', d, d.size) && d.size > 0 && forall i | 0 <= i < |s| :: s[i].0.q != d.q
    ensures Tidy(s') && Total(s') == Total(s) + d.size
    ensures forall q :: Bucket(s', q) == Bucket(s, q) + if q == d.q then d.size else 0
  {
    var k :| 0 <= k <= |s| && InsertedAt(IsHotter, s, s', d, d.size, k);
    var a, c := s[..k], s[k..];
    assert s == a + c;
    assert AllLower(IsHotter, a, d) && NoneLower(IsHotter, c, d);
    forall i | 0 <= i < |a| ensures a[i].0.q > d.q {
      assert IsHotter(a[i].0, d);
    }
    forall i | 0 <= i < |c| ensures c[i].0.q < d.q {
      assert !IsHotter(c[i].0, d) && c[i] == s[k + i];
    }
    TidyIn(a, (d, d.size), c);
    forall q ensures Bucket(s', q) == Bucket(s, q) + if q == d.q then d.size else 0 {
      MiddleBucket(a, (d, d.size), c, q);
    }
    MiddleBucket(a, (d, d.size), c, d.q);
  }

  lemma HotterStrictWeak()
    ensures StrictWeak(IsHotter)
  {
  }
}
