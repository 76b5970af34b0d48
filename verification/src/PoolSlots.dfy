/** The slots of `slab_alloc_t` as values: which are live, which are on the free list, which are on their way. */
module PoolSlots {
  import opened Common
  import opened Arith

  /** How far a thread is in `slab_alloc_malloc`. */
  datatype Phase =
    | Idle
    /** The free list was empty. */
    | Empty
    /** Slot `idx` is taken from `used`; its memory may not be there yet. */
    | Claimed(idx: nat)
    /** `bigary_alloc` found the memory missing and waits for its mutex. */
    | Waiting(idx: nat)

  function Claim(p: Phase): Option<nat> {
    if p.Claimed? || p.Waiting? then Some(p.idx) else None
  }

  /** The free list in memory: `first` and the `next` links spell out `list`. */
  ghost predicate Chain(first: Option<nat>, next: map<nat, Option<nat>>, list: seq<nat>)
    decreases |list|
  {
    if list == [] then first == None
    else first == Some(list[0]) && list[0] in next && Chain(next[list[0]], next, list[1..])
  }

  lemma {:induction false} ChainFrame(first: Option<nat>, next: map<nat, Option<nat>>, list: seq<nat>, s: nat,
      v: Option<nat>)
    requires Chain(first, next, list) && s !in list
    ensures Chain(first, next[s := v], list)
    decreases |list|
  {
    if list != [] { ChainFrame(next[list[0]], next, list[1..], s, v); }
  }

  ghost predicate Distinct(list: seq<nat>) {
    forall i, j | 0 <= i < j < |list| :: list[i] != list[j]
  }

  /** In how many of the three places a slot is. */
  ghost function Places(list: seq<nat>, live: set<nat>, claims: map<nat, nat>, s: nat): nat {
    (if s in list then 1 else 0) + (if s in live then 1 else 0) + if s in claims then 1 else 0
  }

  /** Live slots, free slots and slots on their way are all the slots ever used, each once. */
  ghost predicate Partition(list: seq<nat>, live: set<nat>, claims: map<nat, nat>, used: nat) {
    Distinct(list) && forall s: nat {:trigger Places(list, live, claims, s)} ::
      Places(list, live, claims, s) == if s < used then 1 else 0
  }

  /** `claims` leads from each slot on its way to the one thread that has it. */
  ghost predicate ClaimsOk(claims: map<nat, nat>, phases: map<nat, Phase>) {
    && (forall s | s in claims :: claims[s] in phases && Claim(phases[claims[s]]) == Some(s))
    && (forall t | t in phases && Claim(phases[t]).Some? ::
      Claim(phases[t]).value in claims && claims[Claim(phases[t]).value] == t)
  }

  /** The end of a slot's bytes. */
  function End(s: nat, elementSize: nat): nat { (s + 1) * elementSize }

  /** Different slots have no byte in common. */
  lemma SlotsApart(s: nat, t: nat, elementSize: nat)
    requires s < t
    ensures End(s, elementSize) == s * elementSize + elementSize <= t * elementSize
  {
    MulMono(s + 1, t, elementSize);
  }

  // ---------- the moves of a slot ----------

  lemma PopSlot(list: seq<nat>, live: set<nat>, claims: map<nat, nat>, used: nat)
    requires Partition(list, live, claims, used) && list != []
    ensures Partition(list[1..], live + {list[0]}, claims, used) && list[0] !in live
  {
    assert Places(list, live, claims, list[0]) <= 1;
    forall s: nat ensures Places(list[1..], live + {list[0]}, claims, s) == if s < used then 1 else 0 {
      assert Places(list, live, claims, s) == if s < used then 1 else 0;
      assert s in list <==> s == list[0] || s in list[1..] by { assert list == [list[0]] + list[1..]; }
    }
  }

  lemma PushSlot(list: seq<nat>, live: set<nat>, claims: map<nat, nat>, used: nat, x: nat)
    requires Partition(list, live, claims, used) && x in live
    ensures Partition([x] + list, live - {x}, claims, used) && x !in list
  {
    assert Places(list, live, claims, x) <= 1;
    forall s: nat ensures Places([x] + list, live - {x}, claims, s) == if s < used then 1 else 0 {
      assert Places(list, live, claims, s) == if s < used then 1 else 0;
    }
  }

  lemma ClaimSlot(list: seq<nat>, live: set<nat>, claims: map<nat, nat>, used: nat, t: nat)
    requires Partition(list, live, claims, used)
    ensures Partition(list, live, claims[used := t], used + 1) && used !in claims && used !in live && used !in list
  {
    assert Places(list, live, claims, used) == 0;
    var claims' := claims[used := t];
    forall s: nat ensures Places(list, live, claims', s) == if s < used + 1 then 1 else 0 {
      assert Places(list, live, claims, s) == if s < used then 1 else 0;
    }
  }

  lemma SettleSlot(list: seq<nat>, live: set<nat>, claims: map<nat, nat>, used: nat, x: nat)
    requires Partition(list, live, claims, used) && x in claims
    ensures Partition(list, live + {x}, claims - {x}, used) && x !in live
  {
    assert Places(list, live, claims, x) <= 1;
    forall s: nat ensures Places(list, live + {x}, claims - {x}, s) == if s < used then 1 else 0 {
      assert Places(list, live, claims, s) == if s < used then 1 else 0;
    }
  }
}
