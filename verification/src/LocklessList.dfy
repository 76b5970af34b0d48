/**
  The free list of `slab_alloc_t` without its mutex (`USE_LOCKLESS`): a stack whose head is swung by
  compare-and-swap. A push is safe. A pop reads the head's link before it swings the head, so it is
  right exactly if that link is still the same.
 */
module LocklessList {
  import opened Common
  import opened PoolSlots

  /** How far a thread is. */
  datatype Step =
    | Resting
    /** Pop has read the head. */
    | Holding(x: nat)
    /** Pop has read the head's link. */
    | Ready(x: nat, n: Option<nat>)
    /** Push has linked its slot to the head it read. */
    | Linked(s: nat, h: Option<nat>)

  /** Live and free slots, and the slots being pushed. */
  ghost predicate Whole(list: seq<nat>, live: set<nat>, pushing: set<nat>) {
    Distinct(list) && (forall s | s in list :: s !in live && s !in pushing) && live !! pushing
  }

  lemma {:induction false} ChainUnique(first: Option<nat>, next: map<nat, Option<nat>>, a: seq<nat>, b: seq<nat>)
    requires Chain(first, next, a) && Chain(first, next, b)
    ensures a == b
    decreases |a|
  {
    if a != [] {
      ChainUnique(next[a[0]], next, a[1..], b[1..]);
      assert a == [a[0]] + a[1..] && b == [b[0]] + b[1..];
    }
  }

  lemma {:induction false} ChainSuffix(first: Option<nat>, next: map<nat, Option<nat>>, a: seq<nat>, j: nat)
    requires Chain(first, next, a) && j < |a|
    ensures Chain(Some(a[j]), next, a[j..])
    decreases |a|
  {
    if j > 0 {
      ChainSuffix(next[a[0]], next, a[1..], j - 1);
      assert a[1..][j - 1..] == a[j..];
    }
  }

  /** A head other than the second element leads to no list of the remaining slots. */
  lemma WrongHead(next: map<nat, Option<nat>>, list: seq<nat>, n: Option<nat>, other: seq<nat>)
    requires list != [] && Distinct(list) && Chain(Some(list[0]), next, list) && n != next[list[0]] &&
      Chain(n, next, other)
    ensures exists s :: (s in list[1..]) != (s in other)
  {
    var rest := list[1..];
    assert Chain(next[list[0]], next, rest);
    if other == [] {
      assert rest != [] && rest[0] in rest && rest[0] !in other;
    } else if other[0] !in rest {
      assert other[0] in other;
    } else {
      var j :| 0 <= j < |rest| && rest[j] == other[0];
      ChainSuffix(next[list[0]], next, rest, j);
      ChainUnique(n, next, other, rest[j..]);
      assert j > 0 && rest[0] in rest && rest[0] !in other;
    }
  }

  class FreeList {
    var head: Option<nat>
    var next: map<nat, Option<nat>>
    var steps: map<nat, Step>
    ghost var list: seq<nat>
    ghost var live: set<nat>
    ghost var pushing: set<nat>

    /** The links spell out the free list, and every slot is live, free or being pushed. */
    ghost predicate Valid()
      reads this
    {
      && Whole(list, live, pushing) && Chain(head, next, list) && (forall s | s in list :: s in next)
      && (forall t | t in steps && steps[t].Linked? ::
        steps[t].s in pushing && steps[t].s in next && next[steps[t].s] == steps[t].h)
      && (forall t, u | t in steps && u in steps && steps[t].Linked? && steps[u].Linked? &&
        steps[t].s == steps[u].s :: t == u)
    }

    /** What every pop under way read is still so. */
    ghost predicate Guarded()
      reads this
    {
      && (forall t | t in steps && steps[t].Holding? :: steps[t].x in list)
      && (forall t | t in steps && steps[t].Ready? ::
        steps[t].x in list && steps[t].x in next && next[steps[t].x] == steps[t].n)
    }

    predicate Popping(t: nat)
      reads this
    {
      t in steps && (steps[t].Holding? || steps[t].Ready?)
    }

    constructor (slots: set<nat>)
      ensures Valid() && Guarded() && live == slots && list == [] && head == None && steps == map[] && next == map[] &&
        pushing == {}
    {
      head, next, steps := None, map[], map[];
      list, live, pushing := [], slots, {};
    }

    /** Pop, first load: the head. */
    method PopHead(t: nat) returns (empty: bool)
      requires Valid() && (t in steps ==> steps[t].Resting?)
      modifies this`steps
      ensures Valid() && (empty <==> head == None)
      ensures steps == if empty then old(steps) else old(steps)[t := Holding(head.value)]
      ensures old(Guarded()) ==> Guarded()
    {
      if head.None? { return true; }
      steps := steps[t := Holding(head.value)];
      return false;
    }

    /** Pop, second load: the link of the slot it holds. */
    method PopLink(t: nat)
      requires Valid() && t in steps && steps[t].Holding? && steps[t].x in next
      modifies this`steps
      ensures Valid() && steps == old(steps)[t := Ready(old(steps)[t].x, next[old(steps)[t].x])]
      ensures old(Guarded()) ==> Guarded()
    {
      steps := steps[t := Ready(steps[t].x, next[steps[t].x])];
    }

    /**
      Pop, the compare-and-swap. Where it succeeds the slot is handed out, and what the head then leads
      to is the rest of the free list if and only if the link that was read is still the slot's link.
     */
    method PopSwap(t: nat) returns (ok: bool)
      requires Valid() && t in steps && steps[t].Ready?
      modifies this`head, this`steps, this`list, this`live
      ensures ok <==> old(head) == Some(old(steps)[t].x)
      ensures steps == old(steps)[t := Resting]
      ensures !ok ==>
        Valid() && head == old(head) && list == old(list) && live == old(live) && (old(Guarded()) ==> Guarded())
      ensures ok ==>
        old(list) != [] && list == old(list)[1..] && live == old(live) + {old(list)[0]} && head == old(steps)[t].n
      ensures ok ==> (Valid() <==> old(next)[old(steps)[t].x] == old(steps)[t].n)
      ensures old(Guarded()) ==> Valid()
      ensures old(Guarded()) && (forall u | u != t :: !old(Popping(u))) ==> Guarded()
      ensures ok && !Valid() ==> forall other | Chain(head, next, other) :: exists s :: (s in list) != (s in other)
    {
      var x, n := steps[t].x, steps[t].n;
      ok := head == Some(x);
      steps := steps[t := Resting];
      if ok {
        assert list == [x] + list[1..];
        if next[x] != n {
          forall other | Chain(n, next, other) ensures exists s :: (s in list[1..]) != (s in other) {
            WrongHead(next, list, n, other);
          }
        }
        head := n;
        list, live := list[1..], live + {x};
      }
      forall u: nat | u in steps && u != t ensures old(Popping(u)) <==> steps[u].Holding? || steps[u].Ready? {
      }
    }

    /** A pop that no other thread comes between. */
    method PopAtOnce(t: nat)
      requires Valid() && (t in steps ==> steps[t].Resting?) && list != []
      modifies this`head, this`steps, this`list, this`live
      ensures Valid() && list == old(list)[1..] && live == old(live) + {old(list)[0]} &&
        steps == old(steps)[t := Resting]
    {
      var _ := PopHead(t);
      PopLink(t);
      var _ := PopSwap(t);
    }

    /** Push, before the first compare-and-swap: the slot linked to the head that was read. */
    method PushLink(t: nat, s: nat)
      requires Valid() && (t in steps ==> steps[t].Resting?) && s in live
      modifies this`next, this`steps, this`live, this`pushing
      ensures Valid() && next == old(next)[s := head] && steps == old(steps)[t := Linked(s, head)]
      ensures live == old(live) - {s} && pushing == old(pushing) + {s} && (old(Guarded()) ==> Guarded())
    {
      ChainFrame(head, next, list, s, head);
      next := next[s := head];
      steps := steps[t := Linked(s, head)];
      live, pushing := live - {s}, pushing + {s};
    }

    /** Push, the compare-and-swap: where it fails it links the slot to the head it found. */
    method PushSwap(t: nat) returns (ok: bool)
      requires Valid() && t in steps && steps[t].Linked?
      modifies this`head, this`next, this`steps, this`list, this`pushing
      ensures Valid() && (ok <==> old(head) == old(steps)[t].h) && (old(Guarded()) ==> Guarded())
      ensures ok ==> head == Some(old(steps)[t].s) && list == [old(steps)[t].s] + old(list) && next == old(next)
      ensures ok ==> steps == old(steps)[t := Resting] && pushing == old(pushing) - {old(steps)[t].s}
      ensures !ok ==> head == old(head) && list == old(list) && pushing == old(pushing)
      ensures !ok ==>
        next == old(next)[old(steps)[t].s := head] && steps == old(steps)[t := Linked(old(steps)[t].s, head)]
    {
      var s, h := steps[t].s, steps[t].h;
      ok := head == h;
      if ok {
        head := Some(s);
        list, pushing := [s] + list, pushing - {s};
        assert list[1..] == old(list);
        steps := steps[t := Resting];
      } else {
        ChainFrame(head, next, list, s, head);
        next := next[s := head];
        steps := steps[t := Linked(s, head)];
      }
    }
  }

  /** A free list of two slots. */
  method TwoFree(x: nat, y: nat) returns (pool: FreeList)
    requires x != y
    ensures fresh(pool) && pool.Valid() && pool.list == [x, y] && pool.head == Some(x) &&
      pool.next == map[y := None, x := Some(y)]
    ensures pool.steps == map[1 := Resting] && pool.live == {} && pool.pushing == {}
  {
    pool := new FreeList({x, y});
    pool.PushLink(1, y);
    var ok := pool.PushSwap(1);
    assert pool.list == [y] && pool.live == {x};
    pool.PushLink(1, x);
    ok := pool.PushSwap(1);
    assert pool.list == [x, y];
  }

  /**
    Two threads popping at once: thread 1 reads the head and its link, thread 2 pops both slots and
    pushes the first again, and the swap of thread 1 then makes a live slot the head of the free list.
   */
  method TwoPoppers(x: nat, y: nat) returns (pool: FreeList)
    requires x != y
    ensures y in pool.live && pool.head == Some(y)
  {
    pool := TwoFree(x, y);
    var _ := pool.PopHead(1);
    pool.PopLink(1);
    pool.PopAtOnce(2);
    assert pool.list == [y] && pool.live == {x};
    pool.PopAtOnce(2);
    assert pool.list == [] && pool.live == {x, y};
    pool.PushLink(2, x);
    var _ := pool.PushSwap(2);
    assert pool.head == Some(x) && pool.steps[1] == Ready(x, Some(y));
    var _ := pool.PopSwap(1);
  }
}
