/** `ranking_t`: the buckets kept in the balanced tree, hottest first. */
module RankingClass {
  import opened Common
  import opened AvlTree
  import opened AvlClass
  import opened RankingBuckets

  /** One more than the largest `size_t`. */
  const WORD: nat := 0x1_0000_0000_0000_0000

  class Ranking {
    const entries: WreTree<Agg>
    /** `ranking_quantify_hotness` */
    const quant: real -> real

    ghost predicate Valid()
      reads this, entries
    {
      entries.Valid() && entries.lower == IsHotter && Tidy(Flat(entries.tree))
    }

    /** The entries, hottest first. */
    ghost function Shape(): seq<(Agg, nat)>
      reads this, entries
    {
      Flat(entries.tree)
    }

    /** `ranking_create` */
    constructor (quantify: real -> real)
      ensures Valid() && quant == quantify && fresh(entries) && Shape() == []
    {
      HotterStrictWeak();
      entries := new WreTree(IsHotter);
      quant := quantify;
    }

    /** Looks a hotness up by taking its entry out. */
    method Take(q: real) returns (found: Option<Agg>)
      requires Valid()
      modifies entries
      ensures Valid() && Added(Shape(), old(Shape()), q, Bucket(old(Shape()), q))
      ensures found.Some? <==> Bucket(old(Shape()), q) > 0
      ensures found.Some? ==> found.value == Agg(Bucket(old(Shape()), q), q)
      ensures forall i | 0 <= i < |Shape()| :: Shape()[i].0.q != q
    {
      var temp := Agg(0, q);
      found := entries.Remove(temp);
      if found.Some? {
        RemoveBucket(old(Shape()), Shape(), temp, found.value);
      } else {
        NoBucket(Shape(), temp);
      }
    }

    /** Puts an entry back, unless it is empty. */
    method Store(value: Agg)
      requires Valid() && forall i | 0 <= i < |Shape()| :: Shape()[i].0.q != value.q
      modifies entries
      ensures Valid() && Added(old(Shape()), Shape(), value.q, value.size)
    {
      if value.size > 0 {
        var _ := entries.Put(value, value.size);
        PutBucket(old(Shape()), Shape(), value);
      }
    }

    /** `ranking_add_internal` */
    method Add(hotness: real, size: nat)
      requires Valid()
      modifies entries
      ensures Valid() && Added(old(Shape()), Shape(), quant(hotness), size)
    {
      var found := Take(quant(hotness));
      var value := if found.Some? then found.value.(size := found.value.size + size) else Agg(size, quant(hotness));
      Store(value);
    }

    /** `ranking_remove_internal_relaxed`: removes as much of `total` as there is, and says how much. */
    method RemoveRelaxed(hotness: real, total: nat) returns (removed: nat)
      requires Valid() && (Bucket(Shape(), quant(hotness)) == 0 ==> total == 0)
      modifies entries
      ensures Valid() && removed == Min(total, Bucket(old(Shape()), quant(hotness))) &&
        Added(Shape(), old(Shape()), quant(hotness), removed)
    {
      var found := Take(quant(hotness));
      removed := 0;
      if found.Some? {
        var left := 0;
        if total > found.value.size {
          removed := found.value.size;
        } else {
          removed := total;
          left := found.value.size - total;
        }
        Store(found.value.(size := left));
      } else {
        assert total == 0;
      }
    }

    /**
      `ranking_remove_internal`: takes `size` off the bucket. Taking more than is there only logs, and
      the unsigned difference wraps around.
     */
    method Remove(hotness: real, size: nat)
      requires Valid() && size < WORD
      modifies entries
      ensures Valid() && (size <= Bucket(old(Shape()), quant(hotness)) ==>
        Added(Shape(), old(Shape()), quant(hotness), size))
      ensures 0 < Bucket(old(Shape()), quant(hotness)) < size ==>
        Added(old(Shape()), Shape(), quant(hotness), WORD - size)
      ensures Bucket(old(Shape()), quant(hotness)) == 0 ==> Added(old(Shape()), Shape(), quant(hotness), 0)
    {
      if size == 0 { return; }
      var found := Take(quant(hotness));
      if found.Some? {
        var left := if size > found.value.size then found.value.size + WORD - size else found.value.size - size;
        Store(found.value.(size := left));
      }
    }
  }
}
