/** The slabs of a bin as values: their regions, and the counts that must match them. */
module BinSlabs {
  import opened Common
  import opened MapSums

  /** A slab: how many regions are free, and which are in use. */
  datatype Slab = Slab(nfree: nat, used: set<nat>)

  /** What a thread is doing with the bin's lock not held. */
  datatype Phase =
    | Idle
    /** `arena_bin_nonfull_slab_get` is allocating a slab; `got` regions are taken and not yet in `curregs`. */
    | Growing(got: nat, want: nat)
    /** `arena_dalloc_bin_slab` is freeing a slab that another thread made superfluous. */
    | Dropping(got: nat, want: nat)
    /** `arena_dalloc_bin_slab` is freeing the slab of the last region freed. */
    | Freeing

  /** A thread drops the lock with something still wanted, or with a slab to free after its last region. */
  predicate Pending(p: Phase) {
    (p.Growing? ==> p.got < p.want) && (p.Dropping? ==> p.got <= p.want)
  }

  ghost predicate AllPending(phases: map<nat, Phase>) {
    forall t | t in phases :: Pending(phases[t])
  }

  /** After a stretch of the allocation loop that brings its regions to `got`: done, or what is left is in the phase. */
  predicate Reached(p: Phase, got: nat, want: nat) {
    match p
    case Idle => got == want
    case Growing(g, w) => g == got < want == w
    case Dropping(g, w) => g == got <= want == w
    case Freeing => false
  }

  /** No other thread's phase changed. */
  ghost predicate OnlyThread(phases: map<nat, Phase>, phases': map<nat, Phase>, t: nat) {
    t in phases' && phases'.Keys == phases.Keys && forall x | x in phases && x != t :: phases'[x] == phases[x]
  }

  lemma OnlyThreadToo(phases: map<nat, Phase>, phases1: map<nat, Phase>, phases2: map<nat, Phase>, t: nat)
    requires OnlyThread(phases, phases1, t) && OnlyThread(phases1, phases2, t)
    ensures OnlyThread(phases, phases2, t)
  {
  }

  /** The regions a thread has taken and not yet counted. */
  ghost function Owed(phases: map<nat, Phase>): map<nat, nat> {
    map t | t in phases :: if phases[t].Growing? || phases[t].Dropping? then phases[t].got else 0
  }

  /** The regions a thread has given back and not yet discounted. */
  ghost function Due(phases: map<nat, Phase>): map<nat, nat> {
    map t | t in phases :: if phases[t].Freeing? then 1 else 0
  }

  /** The slabs a thread has freed and not yet discounted. */
  ghost function Held(phases: map<nat, Phase>): map<nat, nat> {
    map t | t in phases :: if phases[t].Dropping? || phases[t].Freeing? then 1 else 0
  }

  /** How many regions of each slab are in use. */
  ghost function Regs(slabs: map<nat, Slab>): map<nat, nat> {
    map s | s in slabs :: |slabs[s].used|
  }

  /** Region `r` of slab `s` is in use. */
  predicate Live(slabs: map<nat, Slab>, s: nat, r: nat) {
    s in slabs && r in slabs[s].used
  }

  /** From one state of the slabs to the next, `taken` came into use, and nothing else changed. */
  ghost predicate Taken(slabs: map<nat, Slab>, slabs': map<nat, Slab>, taken: set<(nat, nat)>) {
    && (forall s: nat, r: nat {:trigger Live(slabs', s, r)} ::
      Live(slabs', s, r) <==> Live(slabs, s, r) || (s, r) in taken)
    && (forall s: nat, r: nat {:trigger Live(slabs, s, r)} :: Live(slabs, s, r) ==> (s, r) !in taken)
  }

  /**
    Where the bin's slabs are: current, in the heap of nonfull ones, in the list of full ones, or in a
    thread's hand.
   */
  datatype Lists = Lists(cur: Option<nat>, nonfull: set<nat>, full: set<nat>, hand: Option<nat>)

  /** In how many of these places a slab is. */
  function Spots(l: Lists, s: nat): nat {
    (if l.cur == Some(s) then 1 else 0) + (if s in l.nonfull then 1 else 0) + (if s in l.full then 1 else 0) +
    if l.hand == Some(s) then 1 else 0
  }

  ghost predicate SlabOk(slab: Slab, nregs: nat) {
    slab.nfree + |slab.used| == nregs && forall r | r in slab.used :: r < nregs
  }

  /** A slab is counted right and filed by its free regions; only `blank` may have none in use. */
  ghost predicate FiledAt(l: Lists, s: nat, slab: Slab, nregs: nat, blank: Option<nat>) {
    && SlabOk(slab, nregs) && (blank == Some(s) || slab.nfree < nregs)
    && (s in l.nonfull ==> 0 < slab.nfree < nregs) && (s in l.full ==> slab.nfree == 0)
  }

  /** Every slab is in exactly one place. */
  ghost predicate Filed(l: Lists, slabs: map<nat, Slab>, nregs: nat, blank: Option<nat>) {
    && (forall s: nat {:trigger Spots(l, s)} :: Spots(l, s) == if s in slabs then 1 else 0)
    && (forall s: nat {:trigger FiledAt(l, s, slabs[s], nregs, blank)} ::
      s in slabs ==> FiledAt(l, s, slabs[s], nregs, blank))
  }

  /** A slab goes from one place to another that suits it. */
  lemma Refiled(l: Lists, l': Lists, slabs: map<nat, Slab>, nregs: nat, blank: Option<nat>, a: nat)
    requires Filed(l, slabs, nregs, blank)
    requires forall s :: Spots(l', s) == Spots(l, s)
    requires forall s | s != a :: (s in l'.nonfull <==> s in l.nonfull) && (s in l'.full <==> s in l.full)
    requires a in slabs ==> FiledAt(l', a, slabs[a], nregs, blank)
    ensures Filed(l', slabs, nregs, blank)
  {
    forall s ensures Spots(l', s) == if s in slabs then 1 else 0 {
      assert Spots(l, s) == if s in slabs then 1 else 0;
    }
    forall s | s in slabs ensures FiledAt(l', s, slabs[s], nregs, blank) {
      assert FiledAt(l, s, slabs[s], nregs, blank);
    }
  }

  /** A slab's own numbers change. */
  lemma Rewritten(l: Lists, slabs: map<nat, Slab>, nregs: nat, blank: Option<nat>, blank': Option<nat>, a: nat,
      slab: Slab)
    requires Filed(l, slabs, nregs, blank) && a in slabs && FiledAt(l, a, slab, nregs, blank') &&
      (blank == blank' || blank == Some(a))
    ensures Filed(l, slabs[a := slab], nregs, blank')
  {
    forall s ensures Spots(l, s) == if s in slabs[a := slab] then 1 else 0 {
      assert Spots(l, s) == if s in slabs then 1 else 0;
    }
    var slabs' := slabs[a := slab];
    forall s | s in slabs' ensures FiledAt(l, s, slabs'[s], nregs, blank') {
      assert s != a ==> FiledAt(l, s, slabs[s], nregs, blank);
    }
  }

  /** What a phase stands for in the three sums. */
  function Regions(p: Phase): nat { if p.Growing? || p.Dropping? then p.got else 0 }
  function Returned(p: Phase): nat { if p.Freeing? then 1 else 0 }
  function Slabs(p: Phase): nat { if p.Dropping? || p.Freeing? then 1 else 0 }

  /** What a thread's phase is, or would be before it joins. */
  function PhaseOf(phases: map<nat, Phase>, t: nat): Phase {
    if t in phases then phases[t] else Idle
  }

  /** A phase change and its effect on the three sums. */
  lemma OwedSet(phases: map<nat, Phase>, t: nat, p: Phase)
    ensures Sum(Owed(phases[t := p])) + Regions(PhaseOf(phases, t)) == Sum(Owed(phases)) + Regions(p)
  {
    assert Owed(phases[t := p]) == Owed(phases)[t := Regions(p)];
    SumSet(Owed(phases), t, Regions(p));
  }

  lemma DueSet(phases: map<nat, Phase>, t: nat, p: Phase)
    ensures Sum(Due(phases[t := p])) + Returned(PhaseOf(phases, t)) == Sum(Due(phases)) + Returned(p)
  {
    assert Due(phases[t := p]) == Due(phases)[t := Returned(p)];
    SumSet(Due(phases), t, Returned(p));
  }

  lemma HeldSet(phases: map<nat, Phase>, t: nat, p: Phase)
    ensures Sum(Held(phases[t := p])) + Slabs(PhaseOf(phases, t)) == Sum(Held(phases)) + Slabs(p)
  {
    assert Held(phases[t := p]) == Held(phases)[t := Slabs(p)];
    SumSet(Held(phases), t, Slabs(p));
  }

  /**
    The counts match the slabs, but for `got` regions and `gone` slabs that a thread in its critical
    section has not counted yet, and no phase holds more than was wanted.
   */
  ghost predicate Counts(curregs: int, curslabs: int, slabs: map<nat, Slab>, phases: map<nat, Phase>, got: int,
      gone: int) {
    && curregs + Sum(Owed(phases)) + got == Sum(Regs(slabs)) + Sum(Due(phases))
    && curslabs == |slabs| + Sum(Held(phases)) + gone
    && AllPending(phases)
  }

  lemma CountsSettled(curregs: int, curslabs: int, slabs: map<nat, Slab>, phases: map<nat, Phase>, got: int, gone: int,
      n: int)
    requires Counts(curregs, curslabs, slabs, phases, got, gone)
    ensures Counts(curregs + n, curslabs - gone, slabs, phases, got - n, 0)
  {
  }

  /** A thread's phase changes: it takes over what the thread has not counted, or hands it back. */
  lemma CountsMoved(curregs: int, curslabs: int, slabs: map<nat, Slab>, phases: map<nat, Phase>,
      t: nat, p: Phase, got: int, gone: int)
    requires Counts(curregs, curslabs, slabs, phases, got, gone) && Pending(p)
    ensures var q := PhaseOf(phases, t);
      Counts(curregs, curslabs, slabs, phases[t := p],
        got + Regions(q) - Returned(q) - Regions(p) + Returned(p), gone + Slabs(q) - Slabs(p))
  {
    OwedSet(phases, t, p);
    DueSet(phases, t, p);
    HeldSet(phases, t, p);
  }

  lemma CountsFreed(curregs: int, curslabs: int, slabs: map<nat, Slab>, phases: map<nat, Phase>, t: nat)
    requires Counts(curregs, curslabs, slabs, phases, 0, 0) && t in phases && phases[t].Freeing?
    ensures Counts(curregs - 1, curslabs - 1, slabs, phases[t := Idle], 0, 0)
  {
    CountsMoved(curregs, curslabs, slabs, phases, t, Idle, 0, 0);
    CountsSettled(curregs, curslabs, slabs, phases[t := Idle], -1, 1, -1);
  }

  /** The lowest free region. */
  method FirstFree(slab: Slab, nregs: nat) returns (r: nat)
    requires SlabOk(slab, nregs) && slab.nfree > 0
    ensures r < nregs && r !in slab.used && forall j | 0 <= j < r :: j in slab.used
  {
    r := 0;
    while r in slab.used
      invariant r <= nregs && forall j | 0 <= j < r :: j in slab.used
      decreases nregs - r
    {
      r := r + 1;
    }
    AllUsed(slab.used, r);
  }

  lemma {:induction false} AllUsed(used: set<nat>, n: nat)
    requires forall j | 0 <= j < n :: j in used
    ensures |used| >= n
  {
    if n > 0 {
      AllUsed(used - {n - 1}, n - 1);
    }
  }

  lemma {:induction false} UsedBelow(used: set<nat>, n: nat)
    requires forall j | j in used :: j < n
    ensures |used| <= n
  {
    if n > 0 {
      UsedBelow(used - {n - 1}, n - 1);
    } else {
      assert used == {};
    }
  }

  /** One region taken. */
  lemma LiveIn(slabs: map<nat, Slab>, s: nat, r: nat, n: nat)
    requires s in slabs && r !in slabs[s].used
    ensures var slabs' := slabs[s := Slab(n, slabs[s].used + {r})];
      Taken(slabs, slabs', {(s, r)}) && Sum(Regs(slabs')) == Sum(Regs(slabs)) + 1 && |slabs'| == |slabs|
  {
    var slabs' := slabs[s := Slab(n, slabs[s].used + {r})];
    assert slabs'.Keys == slabs.Keys && |slabs'| == |slabs'.Keys| && |slabs| == |slabs.Keys|;
    assert Regs(slabs') == Regs(slabs)[s := |slabs[s].used| + 1];
    SumSet(Regs(slabs), s, |slabs[s].used| + 1);
  }

  lemma TakenMore(slabs: map<nat, Slab>, slabs1: map<nat, Slab>, slabs2: map<nat, Slab>, a: set<(nat, nat)>,
      b: set<(nat, nat)>)
    requires Taken(slabs, slabs1, a) && Taken(slabs1, slabs2, b)
    ensures Taken(slabs, slabs2, a + b)
  {
    forall s: nat, r: nat ensures Live(slabs2, s, r) <==> Live(slabs, s, r) || (s, r) in a + b {
      assert Live(slabs1, s, r) <==> Live(slabs, s, r) || (s, r) in a;
    }
    forall s: nat, r: nat | Live(slabs, s, r) ensures (s, r) !in a + b {
      assert Live(slabs1, s, r);
    }
  }

  /** What was taken later is not what was taken before. */
  lemma TakenTwice(slabs: map<nat, Slab>, slabs1: map<nat, Slab>, slabs2: map<nat, Slab>,
      a: set<(nat, nat)>, b: set<(nat, nat)>)
    requires Taken(slabs, slabs1, a) && Taken(slabs1, slabs2, b)
    ensures |a + b| == |a| + |b|
  {
    forall x | x in a ensures x !in b {
      assert Live(slabs1, x.0, x.1);
    }
    assert a * b == {};
  }

  lemma TakenAfter(slabs: map<nat, Slab>, slabs1: map<nat, Slab>, slabs2: map<nat, Slab>, b: set<(nat, nat)>)
    requires Taken(slabs, slabs1, {}) && Taken(slabs1, slabs2, b)
    ensures Taken(slabs, slabs2, b)
  {
    TakenMore(slabs, slabs1, slabs2, {}, b);
    assert {} + b == b;
  }

  /** A step that takes nothing, undone before one that does. */
  lemma TakenBack(slabs: map<nat, Slab>, slabs1: map<nat, Slab>, slabs2: map<nat, Slab>, b: set<(nat, nat)>)
    requires Taken(slabs1, slabs, {}) && Taken(slabs1, slabs2, b)
    ensures Taken(slabs, slabs2, b)
  {
    forall s: nat, r: nat ensures Live(slabs, s, r) <==> Live(slabs1, s, r) {
    }
  }

  /** A new slab has nothing in use. */
  lemma LiveNew(slabs: map<nat, Slab>, s: nat, n: nat)
    requires s !in slabs
    ensures Taken(slabs, slabs[s := Slab(n, {})], {}) && Sum(Regs(slabs[s := Slab(n, {})])) == Sum(Regs(slabs)) &&
      |slabs[s := Slab(n, {})]| == |slabs| + 1
  {
    var slabs' := slabs[s := Slab(n, {})];
    LiveGone(slabs', s);
    assert slabs' - {s} == slabs;
    assert forall x: nat, r: nat :: Live(slabs', x, r) <==> Live(slabs, x, r);
  }

  /** A slab with nothing in use goes. */
  lemma LiveGone(slabs: map<nat, Slab>, s: nat)
    requires s in slabs && slabs[s].used == {}
    ensures Taken(slabs, slabs - {s}, {}) && Sum(Regs(slabs - {s})) == Sum(Regs(slabs)) && |slabs - {s}| + 1 == |slabs|
  {
    assert (slabs - {s}).Keys == slabs.Keys - {s} && |slabs - {s}| == |(slabs - {s}).Keys| && |slabs| == |slabs.Keys|;
    assert Regs(slabs - {s}) == Regs(slabs) - {s};
    SumOut(Regs(slabs), s);
  }

  /** One region given back. */
  lemma LiveOut(slabs: map<nat, Slab>, s: nat, r: nat, n: nat)
    requires s in slabs && r in slabs[s].used
    ensures var slabs' := slabs[s := Slab(n, slabs[s].used - {r})];
      Taken(slabs', slabs, {(s, r)}) && Sum(Regs(slabs')) + 1 == Sum(Regs(slabs)) && |slabs'| == |slabs|
  {
    var slabs' := slabs[s := Slab(n, slabs[s].used - {r})];
    assert slabs'.Keys == slabs.Keys && |slabs'| == |slabs'.Keys| && |slabs| == |slabs.Keys|;
    assert Regs(slabs') == Regs(slabs)[s := |slabs[s].used| - 1];
    SumSet(Regs(slabs), s, |slabs[s].used| - 1);
  }

  lemma CountsGiven(curregs: int, curslabs: int, slabs: map<nat, Slab>, phases: map<nat, Phase>, s: nat, r: nat, n: nat)
    requires Counts(curregs, curslabs, slabs, phases, 0, 0) && s in slabs && r in slabs[s].used
    ensures var slabs' := slabs[s := Slab(n, slabs[s].used - {r})];
      Taken(slabs', slabs, {(s, r)}) && Counts(curregs, curslabs, slabs', phases, -1, 0)
  {
    LiveOut(slabs, s, r, n);
  }

  /** A new slab, in hand, with nothing in use. */
  lemma Arrived(l: Lists, slabs: map<nat, Slab>, nregs: nat, a: nat)
    requires Filed(l, slabs, nregs, None) && a !in slabs && l.hand == None
    ensures Filed(l.(hand := Some(a)), slabs[a := Slab(nregs, {})], nregs, Some(a))
  {
    var l', slabs' := l.(hand := Some(a)), slabs[a := Slab(nregs, {})];
    forall s ensures Spots(l', s) == if s in slabs' then 1 else 0 {
      assert Spots(l, s) == if s in slabs then 1 else 0;
    }
    forall s | s in slabs' ensures FiledAt(l', s, slabs'[s], nregs, Some(a)) {
      assert Spots(l, a) == 0;
      assert s != a ==> FiledAt(l, s, slabs[s], nregs, None);
    }
  }

  /** A slab in hand that leaves the bin. */
  lemma Departed(l: Lists, slabs: map<nat, Slab>, nregs: nat, a: nat)
    requires Filed(l, slabs, nregs, Some(a)) && l.hand == Some(a)
    ensures a in slabs && Filed(l.(hand := None), slabs - {a}, nregs, None)
  {
    var l', slabs' := l.(hand := None), slabs - {a};
    forall s ensures Spots(l', s) == if s in slabs' then 1 else 0 {
      assert Spots(l, s) == if s in slabs then 1 else 0;
    }
    forall s | s in slabs' ensures FiledAt(l', s, slabs'[s], nregs, None) {
      assert FiledAt(l, s, slabs[s], nregs, Some(a));
    }
    assert Spots(l, a) >= 1;
  }

  /** A slab with a region taken is no longer blank. */
  ghost function Unless(blank: Option<nat>, s: nat): Option<nat> {
    if blank == Some(s) then None else blank
  }

  /** A region of the current slab taken. */
  lemma RegTaken(l: Lists, slabs: map<nat, Slab>, nregs: nat, blank: Option<nat>, s: nat, r: nat)
    requires Filed(l, slabs, nregs, blank) && l.cur == Some(s) && s in slabs && slabs[s].nfree > 0
    requires r < nregs && r !in slabs[s].used
    ensures var slabs' := slabs[s := Slab(slabs[s].nfree - 1, slabs[s].used + {r})];
      && Filed(l, slabs', nregs, Unless(blank, s))
      && Taken(slabs, slabs', {(s, r)}) && Sum(Regs(slabs')) == Sum(Regs(slabs)) + 1 && |slabs'| == |slabs|
  {
    var slab := Slab(slabs[s].nfree - 1, slabs[s].used + {r});
    assert FiledAt(l, s, slabs[s], nregs, blank) && Spots(l, s) == 1;
    LiveIn(slabs, s, r, slabs[s].nfree - 1);
    Rewritten(l, slabs, nregs, blank, Unless(blank, s), s, slab);
  }

  /** `s` taken out of the list it was in, into a thread's hand. */
  ghost predicate TakenOut(l: Lists, l': Lists, s: nat) {
    && l.hand == None && l'.hand == Some(s) && (forall x: nat {:trigger Spots(l', x)} :: Spots(l', x) == Spots(l, x))
    && (forall x: nat {:trigger x in l'.nonfull} :: x != s ==> (x in l'.nonfull <==> x in l.nonfull))
    && (forall x: nat {:trigger x in l'.full} :: x != s ==> (x in l'.full <==> x in l.full))
  }

  /** A region of `s` given back, and `s` taken out of its place. */
  lemma Unfiled(l: Lists, l': Lists, slabs: map<nat, Slab>, nregs: nat, s: nat, slab: Slab, blank: Option<nat>)
    requires Filed(l, slabs, nregs, None) && s in slabs && TakenOut(l, l', s)
    requires SlabOk(slab, nregs) && (blank == None || blank == Some(s)) && (blank == Some(s) || slab.nfree < nregs)
    ensures Filed(l', slabs[s := slab], nregs, blank)
  {
    var slabs' := slabs[s := slab];
    forall x: nat ensures Spots(l', x) == if x in slabs' then 1 else 0 {
      assert Spots(l, x) == if x in slabs then 1 else 0;
    }
    forall x: nat | x in slabs' ensures FiledAt(l', x, slabs'[x], nregs, blank) {
      assert Spots(l', x) == 1;
      assert x != s ==> FiledAt(l, x, slabs[x], nregs, None);
    }
  }

  /** Which list a slab that is not current is in, by its free regions. */
  lemma WhichList(l: Lists, slabs: map<nat, Slab>, nregs: nat, s: nat)
    requires Filed(l, slabs, nregs, None) && s in slabs && l.hand == None
    ensures SlabOk(slabs[s], nregs) && slabs[s].nfree < nregs && Spots(l, s) == 1
    ensures l.cur != Some(s) ==> (s in l.full <==> slabs[s].nfree == 0) && (s in l.nonfull <==> slabs[s].nfree > 0)
    ensures s in l.full ==> s !in l.nonfull && slabs[s].nfree == 0
    ensures l.cur == Some(s) ==> s !in l.full && s !in l.nonfull
  {
    assert Spots(l, s) == 1 && FiledAt(l, s, slabs[s], nregs, None);
  }
}
