/** Theorems about every run of the concurrent critnib. */
module CritnibTheorems {
  import opened CritnibHeap
  import opened CritnibMachine
  import opened CritnibInvariant
  import opened CritnibReaders
  import opened CritnibWriters
  import opened CritnibSteps

  /** A rough division of an insert or remove into parts. */
  ghost function Part(pc: Pc): nat {
    match pc
    case Idle => 0
    case InsAllocLeaf => 0
    case InsSetKey => 0
    case InsSetValue => 0
    case InsLoadRoot => 0
    case InsDescend => 0
    case InsPutLeaf => 0
    case InsFreeLeaf1 => 0
    case InsFreeLeaf2 => 0
    case InsUpdate => 1
    case InsAllocNode => 1
    case InsClear => 1
    case InsKid1 => 1
    case InsKid2 => 1
    case InsDepth => 1
    case InsPath => 1
    case InsPublish => 1
    case InsDone => 1
    case RemStart => 2
    case RemBump => 2
    case RemFreeN1 => 2
    case RemFreeN2 => 2
    case RemFreeL1 => 2
    case RemFreeL2 => 2
    case RemClearN => 2
    case RemClearL => 2
    case RemDescend => 3
    case RemUnlink => 3
    case RemCount => 3
    case RemSkip => 3
    case RemPendN => 3
    case RemValue => 3
    case RemPendL => 3
    case RemDone => 3
  }

  lemma FillLeafKeeps(s: Shared, w: Writer, t: Shared, x: Writer)
    requires MemoryOk(s, w) && WriterNext(s, w, t, x) && Part(w.pc) == 0
    ensures StepOk(s, t, x)
  {
    match w.pc
    case Idle => IdleStep(s, w, t, x);
    case InsAllocLeaf => AllocLeafStep(s, w, t, x);
    case InsSetKey => SetKeyStep(s, w, t, x);
    case InsSetValue => SetValueStep(s, w, t, x);
    case InsLoadRoot => LoadRootStep(s, w, t, x);
    case InsDescend => DescendStep(s, w, t, x);
    case InsPutLeaf => PutLeafStep(s, w, t, x);
    case InsFreeLeaf1 => FreeLeaf1Step(s, w, t, x);
    case InsFreeLeaf2 => FreeLeaf2Step(s, w, t, x);
  }

  lemma FillNodeKeeps(s: Shared, w: Writer, t: Shared, x: Writer)
    requires MemoryOk(s, w) && WriterNext(s, w, t, x) && Part(w.pc) == 1
    ensures StepOk(s, t, x)
  {
    match w.pc
    case InsUpdate => UpdateStep(s, w, t, x);
    case InsAllocNode => AllocNodeStep(s, w, t, x);
    case InsClear => ClearStep(s, w, t, x);
    case InsKid1 => Kid1Step(s, w, t, x);
    case InsKid2 => Kid2Step(s, w, t, x);
    case InsDepth => DepthStep(s, w, t, x);
    case InsPath => PathStep(s, w, t, x);
    case InsPublish => PublishStep(s, w, t, x);
    case InsDone => InsertDoneStep(s, w, t, x);
  }

  lemma FreeDueKeeps(s: Shared, w: Writer, t: Shared, x: Writer)
    requires MemoryOk(s, w) && WriterNext(s, w, t, x) && Part(w.pc) == 2
    ensures StepOk(s, t, x)
  {
    match w.pc
    case RemStart => RemStartStep(s, w, t, x);
    case RemBump => BumpStep(s, w, t, x);
    case RemFreeN1 => FreeN1Step(s, w, t, x);
    case RemFreeN2 => FreeN2Step(s, w, t, x);
    case RemFreeL1 => FreeL1Step(s, w, t, x);
    case RemFreeL2 => FreeL2Step(s, w, t, x);
    case RemClearN => ClearNStep(s, w, t, x);
    case RemClearL => ClearLStep(s, w, t, x);
  }

  lemma UnlinkingKeeps(s: Shared, w: Writer, t: Shared, x: Writer)
    requires MemoryOk(s, w) && WriterNext(s, w, t, x) && Part(w.pc) == 3
    ensures StepOk(s, t, x)
  {
    match w.pc
    case RemDescend => RemDescendStep(s, w, t, x);
    case RemUnlink => UnlinkStep(s, w, t, x);
    case RemCount => CountStep(s, w, t, x);
    case RemSkip => SkipStep(s, w, t, x);
    case RemPendN => PendNStep(s, w, t, x);
    case RemValue => ValueStep(s, w, t, x);
    case RemPendL => PendLStep(s, w, t, x);
    case RemDone => RemoveDoneStep(s, w, t, x);
  }

  /** Whatever the lock holder does next, memory stays in order and no reader is misled. */
  lemma WriterKeeps(s: Shared, w: Writer, t: Shared, x: Writer)
    requires MemoryOk(s, w) && WriterNext(s, w, t, x)
    ensures MemoryOk(t, x) && Evolves(s, t)
  {
    if Part(w.pc) == 0 {
      FillLeafKeeps(s, w, t, x);
    } else if Part(w.pc) == 1 {
      FillNodeKeeps(s, w, t, x);
    } else if Part(w.pc) == 2 {
      FreeDueKeeps(s, w, t, x);
    } else {
      UnlinkingKeeps(s, w, t, x);
    }
  }

  lemma InitOk(y: Sys)
    requires Init(y)
    ensures Inv(y)
  {
    assert Last(y.s.hist) == map[];
  }

  lemma NextKeeps(y: Sys, z: Sys)
    requires Inv(y) && Next(y, z)
    ensures Inv(z) && y.s.hist <= z.s.hist && |z.s.hist| <= |y.s.hist| + 1
  {
    if WriterStep(y, z) {
      WriterKeeps(y.s, y.w, z.s, z.w);
      forall i | i in z.readers ensures ReaderOk(z.s, z.readers[i]) {
        ReaderStable(y.s, z.s, y.readers[i]);
      }
    } else {
      var j :| ReaderStep(y, z, j);
      if j in y.readers { ReaderMoves(y.s, y.w, y.readers[j]); }
    }
  }

  /** The invariant holds in every state of every run. */
  lemma {:induction false} RunOk(run: seq<Sys>, i: nat)
    requires IsRun(run) && i < |run|
    ensures Inv(run[i])
  {
    if i == 0 {
      InitOk(run[0]);
    } else {
      RunOk(run, i - 1);
      assert Next(run[i - 1], run[i - 1 + 1]);
      NextKeeps(run[i - 1], run[i]);
    }
  }

  // ---------- critnib_get ----------

  /** A step stores at most one new version of the map. */
  lemma RunStep(run: seq<Sys>, i: nat)
    requires IsRun(run) && i + 1 < |run|
    ensures run[i].s.hist <= run[i + 1].s.hist && |run[i + 1].s.hist| <= |run[i].s.hist| + 1
  {
    RunOk(run, i);
    assert Next(run[i], run[i + 1]);
    NextKeeps(run[i], run[i + 1]);
  }

  /** Histories that grow by at most one version from each state to the next. */
  ghost predicate Chain(hs: seq<seq<Contents>>) {
    forall i | 0 <= i < |hs| - 1 :: hs[i] <= hs[i + 1] && |hs[i + 1]| <= |hs[i]| + 1
  }

  ghost function Histories(run: seq<Sys>): seq<seq<Contents>> {
    seq(|run|, i requires 0 <= i < |run| => run[i].s.hist)
  }

  lemma HistoriesChain(run: seq<Sys>)
    requires IsRun(run)
    ensures Chain(Histories(run))
  {
    var hs := Histories(run);
    forall i | 0 <= i < |hs| - 1 ensures hs[i] <= hs[i + 1] && |hs[i + 1]| <= |hs[i]| + 1 {
      RunStep(run, i);
    }
  }

  /** Every version of the map between two states was current in some state between them. */
  lemma {:induction false} VersionWasCurrent(hs: seq<seq<Contents>>, a: nat, b: nat, j: nat) returns (m: nat)
    requires Chain(hs) && a <= b < |hs| && |hs[a]| - 1 <= j < |hs[b]|
    ensures a <= m <= b && |hs[m]| == j + 1 && Last(hs[m]) == hs[b][j]
  {
    if |hs[b]| == j + 1 {
      m := b;
    } else {
      assert hs[b - 1] <= hs[b - 1 + 1];
      m := VersionWasCurrent(hs, a, b - 1, j);
    }
  }

  /** An answer is what the key that the reader holds had in some state since the version `cs` it holds. */
  lemma AnswerWasCurrent(run: seq<Sys>, a: nat, b: nat, i: nat)
    requires IsRun(run) && a <= b < |run|
    requires i in run[b].readers && run[b].readers[i].RDone? && run[b].readers[i].cs == |run[a].s.hist| - 1
    ensures exists m :: a <= m <= b && Lookup(Last(run[m].s.hist), run[b].readers[i].key) == run[b].readers[i].res
  {
    RunOk(run, b);
    var rd, hist := run[b].readers[i], run[b].s.hist;
    assert ReaderOk(run[b].s, rd);
    var j :| rd.cs <= j < |hist| && Lookup(hist[j], rd.key) == rd.res;
    HistoriesChain(run);
    var m := VersionWasCurrent(Histories(run), a, b, j);
    assert Lookup(Last(run[m].s.hist), rd.key) == rd.res;
  }

  /** The version of the map that is current in a state is what the links of that state hold. */
  lemma TreeHoldsCurrentMap(run: seq<Sys>, m: nat)
    requires IsRun(run) && m < |run|
    ensures Shape(run[m].s.h) && Represents(run[m].s.h, Last(run[m].s.hist))
    ensures run[m].w.pc == Idle ==> Compressed(run[m].s.h)
  {
    RunOk(run, m);
    var s, w := run[m].s, run[m].w;
    assert CompressedBut(s, w);
  }

  // ---------- the grace period ----------

  /** The node or leaf a reader has in hand. */
  ghost function InHand(rd: Reader): Ptr {
    match rd
    case RWalk(_, _, _, _, p) => p
    case RChild(_, _, _, _, a, _) => N(a)
    case RValue(_, _, _, _, a) => L(a)
    case _ => Null
  }

  /** The object may be handed out again: it is in a pool, or the lock holder is filling it. */
  ghost predicate Reusable(s: Shared, p: Ptr) {
    match p
    case Null => false
    case N(a) => a in s.freeN || a in s.handN
    case L(a) => a in s.freeL || a in s.handL
  }

  /** Sixteen removes are enough: nothing that a reader still able to succeed holds is up for reuse. */
  lemma GraceIsLongEnough(run: seq<Sys>, m: nat, i: nat)
    requires IsRun(run) && m < |run| && i in run[m].readers
    requires var rd := run[m].readers[i];
      (rd.RWalk? || rd.RChild? || rd.RValue?) && run[m].s.count < rd.wc + DELETED_LIFE
    ensures !Reusable(run[m].s, InHand(run[m].readers[i]))
  {
    RunOk(run, m);
    HeldNotReusable(run[m].s, run[m].w, run[m].readers[i]);
  }

  lemma HeldNotReusable(s: Shared, w: Writer, rd: Reader)
    requires MemoryOk(s, w) && ReaderOk(s, rd) && (rd.RWalk? || rd.RChild? || rd.RValue?) && !Stale(s, rd.wc)
    ensures !Reusable(s, InHand(rd))
  {
    var p := InHand(rd);
    assert p != Null ==> Held(s, p, rd.wc, rd.st);
    assert PoolsOk(s) && HandsOk(s);
  }

  /** However slow a reader is, the memory it is about to read is allocated. */
  lemma ReadersNeverStray(run: seq<Sys>, m: nat, i: nat)
    requires IsRun(run) && m < |run| && i in run[m].readers
    ensures ReaderSafe(run[m].s, run[m].readers[i])
  {
    RunOk(run, m);
    assert ReaderOk(run[m].s, run[m].readers[i]);
  }

  // ---------- inserts and removes ----------

  /** When an insert or a remove is about to return, the map has changed as its registers say. */
  lemma ResultIsInRegisters(run: seq<Sys>, m: nat)
    requires IsRun(run) && m < |run|
    ensures run[m].w.pc == InsDone ==> InsertSpec(run[m].w, Last(run[m].s.hist))
    ensures run[m].w.pc == RemDone ==> RemoveSpec(run[m].w, Last(run[m].s.hist))
  {
    RunOk(run, m);
    assert LocalOk(run[m].s, run[m].w);
  }
}
