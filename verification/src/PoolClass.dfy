/**
  `slab_alloc_t` with its `bigary`, the free list under its mutex. Each method is one atomic step of a
  thread; a call of `slab_alloc_malloc` is a walk through the phases.
 */
module PoolClass {
  import opened Common
  import opened BaseMath
  import opened PoolSlots

  /** `BIGARY_PAGESIZE` and `BIGARY_DEFAULT_MAX` */
  const PAGESIZE: nat := 2097152
  const DEFAULT_MAX: nat := 16 * 1024 * 1024 * 1024

  datatype Result = Pending | Slot(idx: nat) | Died

  class Pool {
    const elementSize: nat
    const declared: nat
    var top: nat
    var used: nat
    var freelist: Option<nat>
    var next: map<nat, Option<nat>>
    var phases: map<nat, Phase>
    ghost var list: seq<nat>
    ghost var live: set<nat>
    ghost var claims: map<nat, nat>

    /**
      The memory of every live and every free slot is there; `top` is a whole number of pages within what is
      declared.
     */
    ghost predicate Backed()
      reads this
    {
      && top % PAGESIZE == 0 && top <= declared
      && (forall s | s in live :: End(s, elementSize) <= top) && (forall s | s in list :: End(s, elementSize) <= top)
    }

    ghost predicate Valid()
      reads this
    {
      Partition(list, live, claims, used) && Chain(freelist, next, list) && ClaimsOk(claims, phases) && Backed()
    }

    /** `slab_alloc_init` */
    constructor (headerSize: nat, size: nat, maxElements: nat)
      ensures Valid() && elementSize == headerSize + size && used == 0 && live == {} && top == PAGESIZE &&
        phases == map[]
      ensures declared % PAGESIZE == 0 && declared >= maxElements * elementSize
      ensures if maxElements * elementSize == 0 then declared == 16 * 1024 * 1024 * 1024
        else declared < maxElements * elementSize + PAGESIZE
    {
      elementSize := headerSize + size;
      var max := maxElements * (headerSize + size);
      if max == 0 { max := DEFAULT_MAX; }
      if max % PAGESIZE != 0 {
        max := (max / PAGESIZE + 1) * PAGESIZE;
      }
      declared := max;
      top := PAGESIZE;
      used, freelist, next, phases := 0, None, map[], map[];
      list, live, claims := [], {}, map[];
    }

    /** A thread that has not used the allocator before. */
    method Join(t: nat)
      requires Valid() && t !in phases
      modifies this`phases
      ensures Valid() && phases == old(phases)[t := Idle]
    {
      phases := phases[t := Idle];
    }

    /** `slab_alloc_glob_freelist_pop_`, at the start of `slab_alloc_malloc`. */
    method Pop(t: nat) returns (r: Result)
      requires Valid() && t in phases && phases[t].Idle?
      modifies this`freelist, this`phases, this`list, this`live
      ensures Valid() && !r.Died?
      ensures r.Slot? <==> old(list) != []
      ensures r.Slot? ==>
        r.idx !in old(live) && live == old(live) + {r.idx} && (r.idx + 1) * elementSize <= top && phases == old(phases)
      ensures r.Slot? ==> old(list) == [r.idx] + list
      ensures r.Pending? ==> live == old(live) && list == old(list) == [] && phases == old(phases)[t := Empty]
    {
      if freelist.Some? {
        var s := freelist.value;
        PopSlot(list, live, claims, used);
        assert s in list && End(s, elementSize) <= top;
        freelist := next[s];
        list, live := list[1..], live + {s};
        return Slot(s);
      }
      phases := phases[t := Empty];
      return Pending;
    }

    /** `slab_alloc_fetch_increment_used_` */
    method ClaimNew(t: nat)
      requires Valid() && t in phases && phases[t].Empty?
      modifies this`used, this`phases, this`claims
      ensures Valid() && used == old(used) + 1 && phases == old(phases)[t := Claimed(old(used))]
      ensures claims == old(claims)[old(used) := t]
    {
      ClaimSlot(list, live, claims, used, t);
      claims := claims[used := t];
      phases := phases[t := Claimed(used)];
      used := used + 1;
    }

    /** The slot's memory is there: it is the caller's. */
    method Finish(t: nat) returns (r: Result)
      requires Valid() && t in phases && Claim(phases[t]).Some? && top >= End(phases[t].idx, elementSize)
      modifies this`phases, this`next, this`live, this`claims
      ensures Valid() && r == Slot(old(phases)[t].idx) && phases == old(phases)[t := Idle]
      ensures r.idx !in old(live) && live == old(live) + {r.idx} && (r.idx + 1) * elementSize <= top
    {
      var s := phases[t].idx;
      SettleSlot(list, live, claims, used, s);
      assert Places(list, live, claims, s) <= 1;
      ChainFrame(freelist, next, list, s, None);
      next := next[s := None];
      live, claims := live + {s}, claims - {s};
      phases := phases[t := Idle];
      return Slot(s);
    }

    /** `bigary_alloc`, the first look at `top`. */
    method LookAtTop(t: nat) returns (r: Result)
      requires Valid() && t in phases && phases[t].Claimed?
      modifies this`phases, this`next, this`live, this`claims
      ensures Valid() && !r.Died?
      ensures r.Slot? <==> (old(phases)[t].idx + 1) * elementSize <= top
      ensures r.Slot? ==>
        r.idx == old(phases)[t].idx && r.idx !in old(live) && live == old(live) + {r.idx} &&
        phases == old(phases)[t := Idle]
      ensures r.Pending? ==> live == old(live) && phases == old(phases)[t := Waiting(old(phases)[t].idx)]
    {
      var s := phases[t].idx;
      if top >= End(s, elementSize) {
        r := Finish(t);
      } else {
        phases := phases[t := Waiting(s)];
        r := Pending;
      }
    }

    /** `bigary_alloc` with its mutex held; going past what is declared ends the program. */
    method Enlarge(t: nat) returns (r: Result)
      requires Valid() && t in phases && phases[t].Waiting?
      modifies this`top, this`phases, this`next, this`live, this`claims
      ensures Valid() && !r.Pending?
      ensures var want := (old(phases)[t].idx + 1) * elementSize;
        && (r.Died? <==> old(top) < want && Ceil(want, PAGESIZE) > declared)
        && top == if r.Died? || old(top) >= want then old(top) else Ceil(want, PAGESIZE)
      ensures r.Slot? ==>
        r.idx == old(phases)[t].idx && r.idx !in old(live) && live == old(live) + {r.idx} &&
        (r.idx + 1) * elementSize <= top && phases == old(phases)[t := Idle]
      ensures r.Died? ==> live == old(live) && phases == old(phases)
    {
      var want := End(phases[t].idx, elementSize);
      if top < want {
        CeilLeast(want, PAGESIZE);
        var newTop := Ceil(want, PAGESIZE);
        if newTop > declared { return Died; }
        top := newTop;
      }
      r := Finish(t);
    }

    /** `slab_alloc_free` */
    method Free(s: nat)
      requires Valid() && s in live
      modifies this`freelist, this`next, this`list, this`live
      ensures Valid() && live == old(live) - {s} && list == [s] + old(list) && freelist == Some(s)
    {
      PushSlot(list, live, claims, used, s);
      ChainFrame(freelist, next, list, s, freelist);
      next := next[s := freelist];
      freelist := Some(s);
      list, live := [s] + list, live - {s};
      assert list[1..] == old(list);
    }
  }
}
