/**
  How long one attempt of `critnib_get` takes. Depth grows along the links of nodes that are part of the
  tree or wait for reuse, so an attempt ends after a fixed number of loads unless sixteen removes overtake
  it. One that is overtaken need not end: CritnibCycle has a run.
 */
module CritnibAttempts {
  import opened CritnibHeap
  import opened CritnibMachine
  import opened CritnibInvariant
  import opened CritnibReaders
  import opened CritnibTheorems

  /** A reader under way whose attempt has not been overtaken. */
  ghost predicate Timely(s: Shared, rd: Reader) {
    (rd.RRoot? || rd.RWalk? || rd.RChild? || rd.RValue? || rd.RCheck?) && !Stale(s, rd.wc)
  }

  /** More than the loads that are left from a node of this depth. */
  function Below(d: Nib): nat {
    2 * (16 - d)
  }

  ghost function DepthOf(s: Shared, a: nat): Nib {
    if a in s.h.nodes then s.h.nodes[a].depth else 0
  }

  /** An upper bound on the loads an attempt has still to make. */
  ghost function LoadsLeft(s: Shared, rd: Reader): nat {
    match rd
    case RRoot(_, _, _, _) => 37
    case RWalk(_, _, _, _, p) => if p.N? then 4 + Below(DepthOf(s, p.a)) else if p.L? then 3 else 2
    case RChild(_, _, _, _, a, _) => 3 + Below(DepthOf(s, a))
    case RValue(_, _, _, _, _) => 2
    case RCheck(_, _, _, _, _) => 1
    case _ => 0
  }

  /** A node's child that is a node branches on a later nibble. */
  lemma ChildLower(s: Shared, w: Writer, a: nat, i: Nib)
    requires MemoryOk(s, w) && a in s.h.nodes && (Live(s.h, N(a)) || Retired(s, N(a))) && s.h.nodes[a].child[i].N?
    ensures s.h.nodes[a].child[i].a in s.h.nodes && s.h.nodes[a].depth < s.h.nodes[s.h.nodes[a].child[i].a].depth
  {
    if Live(s.h, N(a)) {
      var slot := ChildSlot(a, i);
      assert LiveSlot(s.h, slot) && Get(s.h, slot) == s.h.nodes[a].child[i];
    } else {
      assert RetiredNodeOk(s, a);
    }
  }

  lemma ChildLoads(s: Shared, w: Writer, rd: Reader)
    requires MemoryOk(s, w) && ReaderOk(s, rd) && Timely(s, rd) && rd.RChild?
    ensures LoadsLeft(s, ReaderNext(s, rd)) < LoadsLeft(s, rd)
  {
    assert Held(s, N(rd.a), rd.wc, rd.st);
    var i := rd.key[rd.d];
    if s.h.nodes[rd.a].child[i].N? { ChildLower(s, w, rd.a, i); }
  }

  /** Each load of a timely attempt leaves fewer. */
  lemma LoadCounts(s: Shared, w: Writer, rd: Reader)
    requires MemoryOk(s, w) && ReaderOk(s, rd) && Timely(s, rd)
    ensures LoadsLeft(s, ReaderNext(s, rd)) < LoadsLeft(s, rd) <= 37
  {
    if rd.RChild? { ChildLoads(s, w, rd); }
  }

  /** What the lock holder does to a timely attempt does not make it longer. */
  lemma LoadsKept(s: Shared, t: Shared, rd: Reader)
    requires Evolves(s, t) && ReaderOk(s, rd) && Timely(t, rd)
    ensures LoadsLeft(t, rd) == LoadsLeft(s, rd)
  {
    match rd
    case RWalk(_, _, wc, st, p) =>
      if p != Null { HeldStable(s, t, p, wc, st); }
    case RChild(_, _, wc, st, a, _) => HeldStable(s, t, N(a), wc, st);
    case _ =>
  }

  /** One step of the system, of whoever: the loads of reader `i` are paid for. */
  lemma StepPays(y: Sys, z: Sys, i: nat)
    requires Inv(y) && Next(y, z) && i in y.readers && i in z.readers
    requires Timely(y.s, y.readers[i]) && Timely(z.s, z.readers[i])
    ensures LoadsLeft(z.s, z.readers[i]) + (if z.readers[i] != y.readers[i] then 1
      else 0) <= LoadsLeft(y.s, y.readers[i])
  {
    if WriterStep(y, z) {
      WriterKeeps(y.s, y.w, z.s, z.w);
      LoadsKept(y.s, z.s, y.readers[i]);
    } else {
      var j :| ReaderStep(y, z, j);
      if j == i { LoadCounts(y.s, y.w, y.readers[i]); }
    }
  }

  /** Reader `i` is under way and not overtaken in all states from `a` to `b`. */
  ghost predicate TimelyAll(run: seq<Sys>, i: nat, a: nat, b: nat)
    requires b < |run|
  {
    forall k {:trigger run[k]} | a <= k <= b :: i in run[k].readers && Timely(run[k].s, run[k].readers[i])
  }

  /** The loads of reader `i` from state `a` to state `b`; every load changes what it has in hand. */
  ghost function Loads(run: seq<Sys>, i: nat, a: nat, b: nat): nat
    requires a <= b < |run| && TimelyAll(run, i, a, b)
  {
    if a == b then 0
    else
      assert TimelyAll(run, i, a, b - 1);
      Loads(run, i, a, b - 1) + if run[b].readers[i] != run[b - 1].readers[i] then 1 else 0
  }

  /** The step from state `k` pays for the load that reader `i` makes in it, if it does. */
  ghost predicate Pays(run: seq<Sys>, i: nat, k: nat) {
    && k + 1 < |run| && i in run[k].readers && i in run[k + 1].readers
    && LoadsLeft(run[k + 1].s, run[k + 1].readers[i]) + (if run[k + 1].readers[i] != run[k].readers[i] then 1 else 0)
         <= LoadsLeft(run[k].s, run[k].readers[i])
  }

  lemma RunPays(run: seq<Sys>, i: nat, k: nat)
    requires IsRun(run) && k + 1 < |run| && TimelyAll(run, i, k, k + 1)
    ensures Pays(run, i, k)
  {
    RunOk(run, k);
    assert Next(run[k], run[k + 1]);
    StepPays(run[k], run[k + 1], i);
  }

  lemma {:induction false} LoadsPaid(run: seq<Sys>, i: nat, a: nat, b: nat)
    requires a <= b < |run| && TimelyAll(run, i, a, b) && forall k | a <= k < b :: Pays(run, i, k)
    ensures Loads(run, i, a, b) + LoadsLeft(run[b].s, run[b].readers[i]) <= LoadsLeft(run[a].s, run[a].readers[i])
  {
    if a < b {
      assert TimelyAll(run, i, a, b - 1);
      LoadsPaid(run, i, a, b - 1);
      assert Pays(run, i, b - 1);
    }
  }

  lemma FirstBound(s: Shared, rd: Reader)
    ensures LoadsLeft(s, rd) <= 37
  {
  }

  /** Under every interleaving, an attempt that is not overtaken makes fewer than thirty-seven loads. */
  lemma AttemptEnds(run: seq<Sys>, i: nat, a: nat, b: nat)
    requires IsRun(run) && a <= b < |run| && TimelyAll(run, i, a, b)
    ensures Loads(run, i, a, b) < 37
  {
    forall k | a <= k < b ensures Pays(run, i, k) { RunPays(run, i, k); }
    LoadsPaid(run, i, a, b);
    FirstBound(run[a].s, run[a].readers[i]);
    assert LoadsLeft(run[b].s, run[b].readers[i]) >= 1;
  }
}
