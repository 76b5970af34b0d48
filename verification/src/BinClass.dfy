/**
  `bin_t` of a manual arena. Each method is what one thread does while it holds the bin's lock; where
  the original drops the lock on the way, the thread's phase says how it goes on, and other threads'
  methods may come in between.
 */
module BinClass {
  import opened Common
  import opened BinSlabs

  class Bin {
    const nregs: nat
    /** `extent_snad_comp(a, b) > 0` */
    const newer: (nat, nat) -> bool
    var slabcur: Option<nat>
    var nonfull: set<nat>
    var full: set<nat>
    var slabs: map<nat, Slab>
    var curregs: int
    var curslabs: int
    var nonfullSlabs: int
    var phases: map<nat, Phase>

    ghost function Places(hand: Option<nat>): Lists
      reads this
    {
      Lists(slabcur, nonfull, full, hand)
    }

    /** Every slab in exactly one place, the bin's own or a thread's hand. */
    ghost predicate InOrder(hand: Option<nat>, blank: Option<nat>)
      reads this
    {
      nregs > 0 && Filed(Places(hand), slabs, nregs, blank) && nonfullSlabs == |nonfull|
    }

    /** The counts match the slabs, but for `got` regions that a thread in its critical section has not counted yet. */
    ghost predicate Counted(got: int)
      reads this
    {
      Counts(curregs, curslabs, slabs, phases, got, 0)
    }

    /** What holds whenever the lock is free. */
    ghost predicate Valid()
      reads this
    {
      InOrder(None, None) && Counted(0)
    }

    /** No slab has a region to give. */
    predicate Exhausted()
      reads this
    {
      slabcur == None && nonfull == {}
    }

    /** `bin_init` */
    constructor (regions: nat, comp: (nat, nat) -> bool)
      requires regions > 0
      ensures Valid() && nregs == regions && slabs.Keys == {} && phases.Keys == {}
    {
      nregs, newer := regions, comp;
      slabcur, nonfull, full, slabs := None, {}, {}, map[];
      curregs, curslabs, nonfullSlabs := 0, 0, 0;
      phases := map[];
    }

    /** A thread that has not used the bin before. */
    method Join(t: nat)
      requires Valid() && t !in phases
      modifies this`phases
      ensures Valid() && phases == old(phases)[t := Idle]
    {
      CountsMoved(curregs, curslabs, slabs, phases, t, Idle, 0, 0);
      phases := phases[t := Idle];
    }

    /** A listed slab is one of the bin's. */
    lemma Known(hand: Option<nat>, blank: Option<nat>, s: nat)
      requires InOrder(hand, blank) && (slabcur == Some(s) || s in nonfull || s in full || hand == Some(s))
      ensures s in slabs && FiledAt(Places(hand), s, slabs[s], nregs, blank) && Spots(Places(hand), s) == 1
    {
      assert Spots(Places(hand), s) == if s in slabs then 1 else 0;
    }

    /** `arena_slab_reg_alloc` on the current slab. */
    method RegAlloc(ghost hand: Option<nat>, ghost blank: Option<nat>, ghost got: int) returns (s: nat, r: nat)
      requires InOrder(hand, blank) && Counted(got) && slabcur.Some? && slabcur.value in slabs &&
        slabs[slabcur.value].nfree > 0
      modifies this`slabs
      ensures InOrder(hand, Unless(blank, s)) && Counted(got + 1) && s == slabcur.value
      ensures Taken(old(slabs), slabs, {(s, r)}) && s in slabs && slabs == old(slabs)[s := slabs[s]]
      ensures forall j | 0 <= j < r :: j in old(slabs)[s].used
    {
      s := slabcur.value;
      Known(hand, blank, s);
      r := FirstFree(slabs[s], nregs);
      RegTaken(Places(hand), slabs, nregs, blank, s, r);
      slabs := slabs[s := Slab(slabs[s].nfree - 1, slabs[s].used + {r})];
    }

    /** The current slab back among the nonfull or the full ones. */
    method ShelveCurrent(ghost hand: Option<nat>)
      requires InOrder(hand, None) && slabcur.Some?
      modifies this`slabcur, this`nonfull, this`full, this`nonfullSlabs
      ensures InOrder(hand, None) && slabcur == None
    {
      var s := slabcur.value;
      Known(hand, None, s);
      if slabs[s].nfree > 0 {
        nonfull := nonfull + {s};
        nonfullSlabs := nonfullSlabs + 1;
      } else {
        full := full + {s};
      }
      slabcur := None;
      Refiled(old(Places(hand)), Places(hand), slabs, nregs, None, s);
    }

    /** `arena_bin_lower_slab` */
    method LowerSlab(slab: nat)
      requires InOrder(Some(slab), None) && slab in slabs && slabs[slab].nfree > 0
      modifies this`slabcur, this`nonfull, this`full, this`nonfullSlabs
      ensures InOrder(None, None)
      ensures slabcur == if old(slabcur).Some? && newer(old(slabcur).value, slab) then Some(slab) else old(slabcur)
    {
      if slabcur.Some? && newer(slabcur.value, slab) {
        ShelveCurrent(Some(slab));
        ghost var l := Places(Some(slab));
        Known(Some(slab), None, slab);
        slabcur := Some(slab);
        Refiled(l, Places(None), slabs, nregs, None, slab);
      } else {
        Known(Some(slab), None, slab);
        nonfull := nonfull + {slab};
        nonfullSlabs := nonfullSlabs + 1;
        Refiled(old(Places(Some(slab))), Places(None), slabs, nregs, None, slab);
      }
    }

    /** `arena_bin_slabs_nonfull_tryget` */
    method NonfullTryget() returns (slab: Option<nat>)
      requires InOrder(None, None)
      modifies this`nonfull, this`nonfullSlabs
      ensures InOrder(slab, None) && (slab.None? ==> nonfull == {})
      ensures slab.Some? ==> slab.value in slabs && slabs[slab.value].nfree > 0
    {
      if nonfull == {} { return None; }
      var s :| s in nonfull;
      Known(None, None, s);
      nonfull := nonfull - {s};
      nonfullSlabs := nonfullSlabs - 1;
      Refiled(old(Places(None)), Places(Some(s)), slabs, nregs, None, s);
      return Some(s);
    }

    /** `arena_bin_slabs_full_insert` of the current slab. */
    method RetireCurrent(ghost hand: Option<nat>, ghost blank: Option<nat>)
      requires InOrder(hand, blank) && slabcur.Some? && slabcur.value in slabs && slabs[slabcur.value].nfree == 0
      modifies this`slabcur, this`full
      ensures InOrder(hand, blank) && slabcur == None
    {
      var s := slabcur.value;
      Known(hand, blank, s);
      full := full + {s};
      slabcur := None;
      Refiled(old(Places(hand)), Places(hand), slabs, nregs, blank, s);
    }

    /** A slab in hand becomes the current one. */
    method SetCurrent(slab: nat, ghost blank: Option<nat>)
      requires InOrder(Some(slab), blank) && slabcur == None
      modifies this`slabcur
      ensures InOrder(None, blank) && slabcur == Some(slab) && slab in slabs
    {
      Known(Some(slab), blank, slab);
      slabcur := Some(slab);
      Refiled(old(Places(Some(slab))), Places(None), slabs, nregs, blank, slab);
    }

    /** The lock dropped in the middle: the thread's phase takes over what it has not counted yet. */
    method DropLock(t: nat, p: Phase)
      requires InOrder(None, None) && t in phases && phases[t].Idle? && Pending(p)
      requires Counts(curregs, curslabs, slabs, phases, Regions(p) - Returned(p), Slabs(p))
      modifies this`phases
      ensures Valid() && phases == old(phases)[t := p]
    {
      CountsMoved(curregs, curslabs, slabs, phases, t, p, Regions(p) - Returned(p), Slabs(p));
      phases := phases[t := p];
    }

    /** The lock taken again. */
    method TakeLock(t: nat) returns (p: Phase)
      requires Valid() && t in phases
      modifies this`phases
      ensures p == old(phases)[t] && phases == old(phases)[t := Idle] && OnlyThread(old(phases), phases, t) &&
        InOrder(None, None)
      ensures Pending(p) && Counts(curregs, curslabs, slabs, phases, Regions(p) - Returned(p), Slabs(p))
    {
      p := phases[t];
      CountsMoved(curregs, curslabs, slabs, phases, t, Idle, 0, 0);
      phases := phases[t := Idle];
    }

    /**
      One region: from the current slab, or the first part of `arena_bin_malloc_hard`. Without a slab nothing
      is taken.
     */
    method FillOne(ghost got: int) returns (region: Option<(nat, nat)>)
      requires InOrder(None, None) && Counted(got)
      modifies this`slabcur, this`nonfull, this`full, this`nonfullSlabs, this`slabs
      ensures InOrder(None, None)
      ensures region.Some? ==> Counted(got + 1) && Taken(old(slabs), slabs, {region.value})
      ensures region.None? ==> Counted(got) && slabs == old(slabs) && Exhausted()
    {
      if slabcur.Some? { Known(None, None, slabcur.value); }
      if slabcur.None? || slabs[slabcur.value].nfree == 0 {
        if slabcur.Some? { RetireCurrent(None, None); }
        var slab := NonfullTryget();
        if slab.None? { return None; }
        SetCurrent(slab.value, None);
      }
      var s, r := RegAlloc(None, None, got);
      return Some((s, r));
    }

    /**
      `arena_tcache_fill_small`, or `arena_malloc_small` with `want` one, from a point where `start` regions
      are taken.
     */
    method FillLoop(t: nat, start: nat, want: nat) returns (taken: set<(nat, nat)>)
      requires InOrder(None, None) && Counted(start) && t in phases && phases[t].Idle? && start <= want
      modifies this`slabcur, this`nonfull, this`full, this`nonfullSlabs, this`slabs, this`curregs, this`phases
      ensures Valid() && Taken(old(slabs), slabs, taken)
      ensures OnlyThread(old(phases), phases, t)
      ensures Reached(phases[t], start + |taken|, want) && !phases[t].Dropping?
      ensures phases[t].Growing? ==> Exhausted()
    {
      var i := start;
      taken := {};
      while i < want
        invariant InOrder(None, None) && Counted(i) && phases == old(phases) && Taken(old(slabs), slabs, taken)
        invariant i == start + |taken| <= want
      {
        ghost var was := slabs;
        var region := FillOne(i);
        if region.None? {
          DropLock(t, Growing(i, want));
          return;
        }
        TakenMore(old(slabs), was, slabs, taken, {region.value});
        TakenTwice(old(slabs), was, slabs, taken, {region.value});
        taken := taken + {region.value};
        i := i + 1;
      }
      curregs := curregs + i;
    }

    /** A slab in hand that nobody uses leaves, and the lock is dropped to free it. */
    method ReleaseSlab(t: nat, slab: nat, p: Phase, ghost got: int)
      requires InOrder(Some(slab), Some(slab)) && Counted(got) && slab in slabs && slabs[slab].nfree == nregs
      requires t in phases && phases[t].Idle? && (p.Dropping? || p.Freeing?) &&
        got == (if p.Freeing? then -1 else p.got)
      requires Pending(p)
      modifies this`slabs, this`phases
      ensures Valid() && Taken(old(slabs), slabs, {}) && slabs == old(slabs) - {slab} && phases == old(phases)[t := p]
    {
      Known(Some(slab), Some(slab), slab);
      LiveGone(slabs, slab);
      Departed(Places(Some(slab)), slabs, nregs, slab);
      slabs := slabs - {slab};
      DropLock(t, p);
    }

    /** The slab the thread comes back with: a new one, or one that has become nonfull meanwhile. */
    method ArriveWith(added: Option<nat>, ghost got: int) returns (slab: Option<nat>)
      requires InOrder(None, None) && Counted(got) && (added.Some? ==> added.value !in slabs)
      modifies this`nonfull, this`nonfullSlabs, this`slabs, this`curslabs
      ensures InOrder(slab, added) && Counted(got) && Taken(old(slabs), slabs, {}) && (added.Some? ==> slab == added)
      ensures slab.None? ==> nonfull == {}
      ensures slab.Some? ==>
        slab.value in slabs && slabs[slab.value].nfree > 0 && (slabs[slab.value].nfree == nregs <==> added.Some?)
    {
      if added.Some? {
        LiveNew(slabs, added.value, nregs);
        Arrived(Places(None), slabs, nregs, added.value);
        slabs := slabs[added.value := Slab(nregs, {})];
        curslabs := curslabs + 1;
        return added;
      } else {
        slab := NonfullTryget();
        if slab.Some? { Known(slab, None, slab.value); }
      }
    }

    /** A region from the current slab, and on with the loop. */
    method UseSlab(t: nat, ghost blank: Option<nat>, got: nat, want: nat) returns (taken: set<(nat, nat)>)
      requires InOrder(None, blank) && Counted(got) && t in phases && phases[t].Idle?
      requires slabcur.Some? && slabcur.value in slabs && slabs[slabcur.value].nfree > 0 &&
        (blank.None? || blank == slabcur)
      requires got < want
      modifies this`slabcur, this`nonfull, this`full, this`nonfullSlabs, this`slabs, this`curregs, this`phases
      ensures Valid() && Taken(old(slabs), slabs, taken)
      ensures OnlyThread(old(phases), phases, t)
      ensures taken != {} && Reached(phases[t], got + |taken|, want) && !phases[t].Dropping?
      ensures phases[t].Growing? ==> Exhausted()
    {
      var s, r := RegAlloc(None, blank, got);
      ghost var was := slabs;
      var more := FillLoop(t, got + 1, want);
      TakenMore(old(slabs), was, slabs, {(s, r)}, more);
      TakenTwice(old(slabs), was, slabs, {(s, r)}, more);
      taken := {(s, r)} + more;
    }

    /** Another thread has set a current slab with room: a region from it, and `slab` is put away or freed. */
    method UseCurrent(t: nat, slab: Option<nat>, ghost added: Option<nat>, got: nat, want: nat)
        returns (taken: set<(nat, nat)>)
      requires InOrder(slab, added) && Counted(got) && t in phases && phases[t].Idle? && got < want
      requires slabcur.Some? && slabcur.value in slabs && slabs[slabcur.value].nfree > 0 &&
        (added.Some? ==> slab == added)
      requires slab.Some? ==>
        slab.value in slabs && slabs[slab.value].nfree > 0 && (slabs[slab.value].nfree == nregs <==> added.Some?)
      modifies this`slabcur, this`nonfull, this`full, this`nonfullSlabs, this`slabs, this`curregs, this`phases
      ensures Valid() && Taken(old(slabs), slabs, taken)
      ensures OnlyThread(old(phases), phases, t)
      ensures taken != {} && Reached(phases[t], got + |taken|, want) && (phases[t].Growing? ==> Exhausted())
      ensures phases[t].Dropping? ==> added.Some? && added.value !in slabs
    {
      if slab.Some? { Known(slab, added, slab.value); }
      var s, r := RegAlloc(slab, added, got);
      ghost var was := slabs;
      var more := PutAway(t, slab, added, got + 1, want);
      TakenMore(old(slabs), was, slabs, {(s, r)}, more);
      TakenTwice(old(slabs), was, slabs, {(s, r)}, more);
      taken := {(s, r)} + more;
    }

    /** The slab in hand, if there is one, is freed or put away, and the loop goes on. */
    method PutAway(t: nat, slab: Option<nat>, ghost added: Option<nat>, got: nat, want: nat)
        returns (taken: set<(nat, nat)>)
      requires InOrder(slab, added) && Counted(got) && t in phases && phases[t].Idle? && (added.Some? ==> slab == added)
      requires got <= want
      requires slab.Some? ==>
        slab.value in slabs && slabs[slab.value].nfree > 0 && (slabs[slab.value].nfree == nregs <==> added.Some?)
      modifies this`slabcur, this`nonfull, this`full, this`nonfullSlabs, this`slabs, this`curregs, this`phases
      ensures Valid() && Taken(old(slabs), slabs, taken)
      ensures OnlyThread(old(phases), phases, t)
      ensures Reached(phases[t], got + |taken|, want) && (phases[t].Growing? ==> Exhausted())
      ensures phases[t].Dropping? ==> added.Some? && added.value !in slabs
    {
      if slab.Some? {
        if slabs[slab.value].nfree == nregs {
          ReleaseSlab(t, slab.value, Dropping(got, want), got);
          return {};
        }
        LowerSlab(slab.value);
      }
      taken := FillLoop(t, got, want);
    }

    /** `arena_bin_malloc_hard` once it has looked for a slab. */
    method MallocHard(t: nat, slab: Option<nat>, ghost added: Option<nat>, got: nat, want: nat)
        returns (taken: set<(nat, nat)>)
      requires InOrder(slab, added) && Counted(got) && t in phases && phases[t].Idle? && (added.Some? ==> slab == added)
      requires got < want
      requires slab.Some? ==>
        slab.value in slabs && slabs[slab.value].nfree > 0 && (slabs[slab.value].nfree == nregs <==> added.Some?)
      modifies this`slabcur, this`nonfull, this`full, this`nonfullSlabs, this`slabs, this`curregs, this`phases
      ensures Valid() && Taken(old(slabs), slabs, taken)
      ensures OnlyThread(old(phases), phases, t)
      ensures if taken == {} then slab.None? && phases[t].Idle? && slabcur == None && nonfull == old(nonfull)
              else Reached(phases[t], got + |taken|, want)
      ensures phases[t].Growing? ==> Exhausted()
      ensures phases[t].Dropping? ==> added.Some? && added.value !in slabs
    {
      if slabcur.Some? {
        Known(slab, added, slabcur.value);
        if slabs[slabcur.value].nfree > 0 {
          taken := UseCurrent(t, slab, added, got, want);
          return;
        }
        RetireCurrent(slab, added);
      }
      if slab.None? {
        curregs := curregs + got;
        return {};
      }
      SetCurrent(slab.value, added);
      taken := UseSlab(t, added, got, want);
    }

    /** The rest of `arena_bin_malloc_hard` once the lock is back, and of the loop that called it. */
    method GrowResume(t: nat, added: Option<nat>) returns (taken: set<(nat, nat)>)
      requires Valid() && t in phases && phases[t].Growing? && (added.Some? ==> added.value !in slabs)
      modifies this`slabcur, this`nonfull, this`full, this`nonfullSlabs, this`slabs, this`curregs, this`curslabs,
        this`phases
      ensures Valid() && Taken(old(slabs), slabs, taken)
      ensures OnlyThread(old(phases), phases, t)
      ensures if taken == {} then added.None? && phases[t].Idle? && Exhausted()
              else Reached(phases[t], old(phases)[t].got + |taken|, old(phases)[t].want)
      ensures phases[t].Growing? ==> Exhausted()
      ensures phases[t].Dropping? ==> added.Some? && added.value !in slabs
    {
      var p := TakeLock(t);
      var slab := ArriveWith(added, p.got);
      ghost var was := slabs;
      taken := MallocHard(t, slab, added, p.got, p.want);
      TakenAfter(old(slabs), was, slabs, taken);
    }

    /** The superfluous slab is freed: the loop goes on. */
    method DropResume(t: nat) returns (taken: set<(nat, nat)>)
      requires Valid() && t in phases && phases[t].Dropping?
      modifies this`slabcur, this`nonfull, this`full, this`nonfullSlabs, this`slabs, this`curregs, this`curslabs,
        this`phases
      ensures Valid() && Taken(old(slabs), slabs, taken)
      ensures OnlyThread(old(phases), phases, t)
      ensures Reached(phases[t], old(phases)[t].got + |taken|, old(phases)[t].want) && !phases[t].Dropping?
      ensures phases[t].Growing? ==> Exhausted()
    {
      var p := TakeLock(t);
      CountsSettled(curregs, curslabs, slabs, phases, p.got, 1, 0);
      curslabs := curslabs - 1;
      ghost var was := phases;
      taken := FillLoop(t, p.got, p.want);
      OnlyThreadToo(old(phases), was, phases, t);
    }

    /** `arena_malloc_small` and `arena_tcache_fill_small`, up to the first place where the lock is dropped. */
    method Fill(t: nat, want: nat) returns (taken: set<(nat, nat)>)
      requires Valid() && t in phases && phases[t].Idle?
      modifies this`slabcur, this`nonfull, this`full, this`nonfullSlabs, this`slabs, this`curregs, this`phases
      ensures Valid() && Taken(old(slabs), slabs, taken)
      ensures OnlyThread(old(phases), phases, t)
      ensures Reached(phases[t], |taken|, want) && !phases[t].Dropping?
      ensures phases[t].Growing? ==> Exhausted()
    {
      taken := FillLoop(t, 0, want);
    }

    /** A region given back to a slab that keeps its place. */
    method RegDalloc(s: nat, r: nat)
      requires Valid() && Live(slabs, s, r) && slabs[s].nfree + 1 < nregs && (slabs[s].nfree > 0 || slabcur == Some(s))
      modifies this`slabs, this`curregs
      ensures Valid() && Taken(slabs, old(slabs), {(s, r)}) && slabs.Keys == old(slabs).Keys
    {
      WhichList(Places(None), slabs, nregs, s);
      var slab := Slab(slabs[s].nfree + 1, slabs[s].used - {r});
      CountsGiven(curregs, curslabs, slabs, phases, s, r, slab.nfree);
      CountsSettled(curregs, curslabs, slabs[s := slab], phases, -1, 0, -1);
      Rewritten(Places(None), slabs, nregs, None, None, s, slab);
      slabs := slabs[s := slab];
      curregs := curregs - 1;
    }

    /** `arena_dissociate_bin_slab`: which list the slab is in is told from the number of regions alone. */
    method Dissociate(s: nat)
      requires slabcur == Some(s) || (if nregs == 1 then s in full else s in nonfull)
      requires Spots(Places(None), s) == 1 && nonfullSlabs == |nonfull|
      modifies this`slabcur, this`nonfull, this`full, this`nonfullSlabs
      ensures TakenOut(old(Places(None)), Places(Some(s)), s) && nonfullSlabs == |nonfull|
    {
      if slabcur == Some(s) {
        slabcur := None;
      } else if nregs == 1 {
        full := full - {s};
      } else {
        nonfull := nonfull - {s};
        nonfullSlabs := nonfullSlabs - 1;
      }
    }

    /** `arena_bin_slabs_full_remove` */
    method FullRemove(s: nat)
      requires s in full && Spots(Places(None), s) == 1
      modifies this`full
      ensures TakenOut(old(Places(None)), Places(Some(s)), s)
    {
      full := full - {s};
    }

    /** A region given back to a slab that leaves its place. */
    method RegDallocOut(s: nat, r: nat)
      requires Valid() && Live(slabs, s, r) &&
        (slabs[s].nfree + 1 == nregs || (slabs[s].nfree == 0 && slabcur != Some(s)))
      modifies this`slabs, this`slabcur, this`nonfull, this`full, this`nonfullSlabs
      ensures s in slabs && InOrder(Some(s), if slabs[s].nfree == nregs then Some(s) else None) && Counted(-1)
      ensures slabs[s].nfree == old(slabs)[s].nfree + 1 && Taken(slabs, old(slabs), {(s, r)})
      ensures slabs.Keys == old(slabs).Keys
    {
      ghost var l, was := Places(None), slabs;
      WhichList(l, slabs, nregs, s);
      var slab := Slab(slabs[s].nfree + 1, slabs[s].used - {r});
      CountsGiven(curregs, curslabs, slabs, phases, s, r, slab.nfree);
      slabs := slabs[s := slab];
      if slabs[s].nfree == nregs {
        Dissociate(s);
      } else {
        FullRemove(s);
      }
      Unfiled(l, Places(Some(s)), was, nregs, s, slab, if slab.nfree == nregs then Some(s) else None);
    }

    /** The last region of a slab: the slab is no longer the bin's. */
    method DallocLast(t: nat, s: nat, r: nat)
      requires Valid() && t in phases && phases[t].Idle? && Live(slabs, s, r) && slabs[s].nfree + 1 == nregs
      modifies this`slabcur, this`nonfull, this`full, this`nonfullSlabs, this`slabs, this`phases
      ensures Valid() && Taken(slabs, old(slabs), {(s, r)})
      ensures phases == old(phases)[t := Freeing] && slabs.Keys == old(slabs).Keys - {s}
    {
      RegDallocOut(s, r);
      ghost var was := slabs;
      ReleaseSlab(t, s, Freeing, -1);
      TakenBack(slabs, was, old(slabs), {(s, r)});
    }

    /** The first region given back to a full slab. */
    method DallocFirst(s: nat, r: nat)
      requires Valid() && Live(slabs, s, r) && slabs[s].nfree == 0 && nregs > 1 && slabcur != Some(s)
      modifies this`slabcur, this`nonfull, this`full, this`nonfullSlabs, this`slabs, this`curregs
      ensures Valid() && Taken(slabs, old(slabs), {(s, r)}) && slabs.Keys == old(slabs).Keys
    {
      RegDallocOut(s, r);
      LowerSlab(s);
      CountsSettled(curregs, curslabs, slabs, phases, -1, 0, -1);
      curregs := curregs - 1;
    }

    /** `arena_dalloc_bin_locked_impl` */
    method Dalloc(t: nat, s: nat, r: nat)
      requires Valid() && t in phases && phases[t].Idle? && Live(slabs, s, r)
      modifies this`slabcur, this`nonfull, this`full, this`nonfullSlabs, this`slabs, this`curregs, this`phases
      ensures Valid() && Taken(slabs, old(slabs), {(s, r)})
      ensures OnlyThread(old(phases), phases, t)
      ensures if old(slabs)[s].nfree + 1 == nregs then phases[t] == Freeing && slabs.Keys == old(slabs).Keys - {s}
              else phases == old(phases) && slabs.Keys == old(slabs).Keys
    {
      if slabs[s].nfree + 1 == nregs {
        DallocLast(t, s, r);
      } else if slabs[s].nfree + 1 == 1 && slabcur != Some(s) {
        DallocFirst(s, r);
      } else {
        WhichList(Places(None), slabs, nregs, s);
        RegDalloc(s, r);
      }
    }

    /** The slab is freed: `curslabs` and `curregs` follow. */
    method FreeResume(t: nat)
      requires Valid() && t in phases && phases[t].Freeing?
      modifies this`curregs, this`curslabs, this`phases
      ensures Valid() && phases == old(phases)[t := Idle]
    {
      CountsFreed(curregs, curslabs, slabs, phases, t);
      phases := phases[t := Idle];
      curregs, curslabs := curregs - 1, curslabs - 1;
    }
  }
}
