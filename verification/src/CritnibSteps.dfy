/** Every step of the lock holder keeps the invariant; with it, the theorems about `critnib_get`. */
module CritnibSteps {
  import opened CritnibHeap
  import opened CritnibMachine
  import opened CritnibInvariant
  import opened CritnibWriters
  import opened CritnibGrace
  import opened CritnibRemovers

  ghost predicate HolderOk(s: Shared, w: Writer) {
    LocalOk(s, w) && GraceOk(s, w)
  }

  lemma WindowFromGrace(s: Shared, w: Writer)
    requires GraceOk(s, w)
    ensures WindowOk(s)
  {
  }

  /** A step that changes neither the counter nor the rings, outside the numbered part of a remove. */
  lemma RestGrace(s: Shared, w: Writer, t: Shared, x: Writer)
    requires GraceOk(s, w) && PhaseN(w.pc) == Rest && PhaseL(w.pc) == Rest && PhaseN(x.pc) == Rest &&
      PhaseL(x.pc) == Rest
    requires t.count == s.count && t.retN == s.retN && t.retL == s.retL && t.pendN == s.pendN && t.pendL == s.pendL
    ensures GraceOk(t, x)
  {
    GraceAtRest(s.retN, s.pendN, true, s.count, w.r, w.b, x.r, x.b);
    GraceAtRest(s.retL, s.pendL, false, s.count, w.r, w.k, x.r, x.k);
  }

  // ---------- insert ----------

  lemma Stay(s: Shared, w: Writer)
    requires CoreOk(s)
    ensures CoreStepOk(s, s)
  {
    StayEvolves(s);
  }

  lemma AllocNodeLocal(s: Shared, w: Writer, t: Shared, x: Writer)
    requires CoreOk(s) && LocalOk(s, w) && w.pc == InsAllocNode && DoAllocNode(s, w, t, x)
    ensures LocalOk(t, x)
  {
    if x.pc == InsClear {
      AllocNodeHands(s, w, t, x);
      SplitStays(s, w, t.h, x);
    }
  }

  lemma ClearCore(s: Shared, w: Writer, t: Shared, x: Writer)
    requires CoreOk(s) && WindowOk(s) && LocalOk(s, w) && w.pc == InsClear && DoClear(s, w, t, x)
    ensures CoreStepOk(s, t)
  {
    if w.i < 16 { HandNodeStore(s, w, t, t.h.nodes[w.b]); } else { Stay(s, w); }
  }

  lemma KidCore(s: Shared, w: Writer, t: Shared, x: Writer)
    requires CoreOk(s) && WindowOk(s) && LocalOk(s, w)
    requires || (w.pc == InsKid1 && DoKid1(s, w, t, x)) || (w.pc == InsKid2 && DoKid2(s, w, t, x))
             || (w.pc == InsDepth && DoDepth(s, w, t, x)) || (w.pc == InsPath && DoPath(s, w, t, x))
    ensures CoreStepOk(s, t)
  {
    HandNodeStore(s, w, t, t.h.nodes[w.b]);
  }

  lemma AllocLeafHolder(s: Shared, w: Writer, t: Shared, x: Writer)
    requires HolderOk(s, w) && w.pc == InsAllocLeaf && DoAllocLeaf(s, w, t, x)
    ensures HolderOk(t, x)
  {
    RestGrace(s, w, t, x);
  }

  lemma AllocLeafStep(s: Shared, w: Writer, t: Shared, x: Writer)
    requires MemoryOk(s, w) && w.pc == InsAllocLeaf && DoAllocLeaf(s, w, t, x)
    ensures StepOk(s, t, x)
  {
    AllocLeafCore(s, w, t, x);
    AllocLeafHolder(s, w, t, x);
    CompressedFrame(s, w, t, x);
    WindowFromGrace(t, x);
  }

  lemma SetKeyHolder(s: Shared, w: Writer, t: Shared, x: Writer)
    requires HolderOk(s, w) && w.pc == InsSetKey && DoSetKey(s, w, t, x)
    ensures HolderOk(t, x)
  {
    RestGrace(s, w, t, x);
  }

  lemma SetKeyStep(s: Shared, w: Writer, t: Shared, x: Writer)
    requires MemoryOk(s, w) && w.pc == InsSetKey && DoSetKey(s, w, t, x)
    ensures StepOk(s, t, x)
  {
    HandLeafStore(s, w, t, t.h.leaves[w.k]);
    SetKeyHolder(s, w, t, x);
    CompressedFrame(s, w, t, x);
    WindowFromGrace(t, x);
  }

  lemma SetValueHolder(s: Shared, w: Writer, t: Shared, x: Writer)
    requires HolderOk(s, w) && w.pc == InsSetValue && DoSetValue(s, w, t, x)
    ensures HolderOk(t, x)
  {
    RestGrace(s, w, t, x);
  }

  lemma SetValueStep(s: Shared, w: Writer, t: Shared, x: Writer)
    requires MemoryOk(s, w) && w.pc == InsSetValue && DoSetValue(s, w, t, x)
    ensures StepOk(s, t, x)
  {
    HandLeafStore(s, w, t, t.h.leaves[w.k]);
    SetValueHolder(s, w, t, x);
    CompressedFrame(s, w, t, x);
    WindowFromGrace(t, x);
  }

  lemma LoadRootHolder(s: Shared, w: Writer, t: Shared, x: Writer)
    requires HolderOk(s, w) && w.pc == InsLoadRoot && DoLoadRoot(s, w, t, x)
    ensures HolderOk(t, x)
  {
    LoadRootLocal(s, w, x);
    RestGrace(s, w, t, x);
  }

  lemma LoadRootStep(s: Shared, w: Writer, t: Shared, x: Writer)
    requires MemoryOk(s, w) && w.pc == InsLoadRoot && DoLoadRoot(s, w, t, x)
    ensures StepOk(s, t, x)
  {
    Stay(s, w);
    LoadRootHolder(s, w, t, x);
    CompressedFrame(s, w, t, x);
    WindowFromGrace(t, x);
  }

  lemma DescendHolder(s: Shared, w: Writer, t: Shared, x: Writer)
    requires HolderOk(s, w) && TreeOk(s) && w.pc == InsDescend && DoDescend(s, w, t, x)
    ensures HolderOk(t, x)
  {
    DescendLocal(s, w, x);
    RestGrace(s, w, t, x);
  }

  lemma DescendStep(s: Shared, w: Writer, t: Shared, x: Writer)
    requires MemoryOk(s, w) && w.pc == InsDescend && DoDescend(s, w, t, x)
    ensures StepOk(s, t, x)
  {
    Stay(s, w);
    DescendHolder(s, w, t, x);
    CompressedFrame(s, w, t, x);
    WindowFromGrace(t, x);
  }

  lemma FreeLeaf1Holder(s: Shared, w: Writer, t: Shared, x: Writer)
    requires HolderOk(s, w) && HandsOk(s) && w.pc == InsFreeLeaf1 && DoFreeLeaf1(s, w, t, x)
    ensures HolderOk(t, x)
  {
    RestGrace(s, w, t, x);
  }

  lemma FreeLeaf1Step(s: Shared, w: Writer, t: Shared, x: Writer)
    requires MemoryOk(s, w) && w.pc == InsFreeLeaf1 && DoFreeLeaf1(s, w, t, x)
    ensures StepOk(s, t, x)
  {
    HandLeafStore(s, w, t, t.h.leaves[w.k]);
    FreeLeaf1Holder(s, w, t, x);
    CompressedFrame(s, w, t, x);
    WindowFromGrace(t, x);
  }

  lemma FreeLeaf2Holder(s: Shared, w: Writer, t: Shared, x: Writer)
    requires HolderOk(s, w) && TreeOk(s) && w.pc == InsFreeLeaf2 && DoFreeLeaf2(s, w, t, x)
    ensures HolderOk(t, x)
  {
    FreeLeafLocal(s, w, t, x);
    RestGrace(s, w, t, x);
  }

  lemma FreeLeaf2Step(s: Shared, w: Writer, t: Shared, x: Writer)
    requires MemoryOk(s, w) && w.pc == InsFreeLeaf2 && DoFreeLeaf2(s, w, t, x)
    ensures StepOk(s, t, x)
  {
    PushLeafCore(s, w, t);
    FreeLeaf2Holder(s, w, t, x);
    CompressedFrame(s, w, t, x);
    WindowFromGrace(t, x);
  }

  lemma AllocNodeHolder(s: Shared, w: Writer, t: Shared, x: Writer)
    requires HolderOk(s, w) && CoreOk(s) && w.pc == InsAllocNode && DoAllocNode(s, w, t, x)
    ensures HolderOk(t, x)
  {
    AllocNodeLocal(s, w, t, x);
    RestGrace(s, w, t, x);
  }

  lemma AllocNodeStep(s: Shared, w: Writer, t: Shared, x: Writer)
    requires MemoryOk(s, w) && w.pc == InsAllocNode && DoAllocNode(s, w, t, x)
    ensures StepOk(s, t, x)
  {
    AllocNodeCore(s, w, t, x);
    AllocNodeHolder(s, w, t, x);
    CompressedFrame(s, w, t, x);
    WindowFromGrace(t, x);
  }

  lemma ClearHolder(s: Shared, w: Writer, t: Shared, x: Writer)
    requires HolderOk(s, w) && TreeOk(s) && HandsOk(s) && w.pc == InsClear && DoClear(s, w, t, x)
    ensures HolderOk(t, x)
  {
    ClearLocal(s, w, t, x);
    RestGrace(s, w, t, x);
  }

  lemma ClearStep(s: Shared, w: Writer, t: Shared, x: Writer)
    requires MemoryOk(s, w) && w.pc == InsClear && DoClear(s, w, t, x)
    ensures StepOk(s, t, x)
  {
    ClearCore(s, w, t, x);
    ClearHolder(s, w, t, x);
    CompressedFrame(s, w, t, x);
    WindowFromGrace(t, x);
  }

  lemma Kid1Holder(s: Shared, w: Writer, t: Shared, x: Writer)
    requires HolderOk(s, w) && TreeOk(s) && HandsOk(s) && w.pc == InsKid1 && DoKid1(s, w, t, x)
    ensures HolderOk(t, x)
  {
    Kid1Local(s, w, t, x);
    RestGrace(s, w, t, x);
  }

  lemma Kid1Step(s: Shared, w: Writer, t: Shared, x: Writer)
    requires MemoryOk(s, w) && w.pc == InsKid1 && DoKid1(s, w, t, x)
    ensures StepOk(s, t, x)
  {
    KidCore(s, w, t, x);
    Kid1Holder(s, w, t, x);
    CompressedFrame(s, w, t, x);
    WindowFromGrace(t, x);
  }

  lemma Kid2Holder(s: Shared, w: Writer, t: Shared, x: Writer)
    requires HolderOk(s, w) && TreeOk(s) && HandsOk(s) && w.pc == InsKid2 && DoKid2(s, w, t, x)
    ensures HolderOk(t, x)
  {
    Kid2Local(s, w, t, x);
    RestGrace(s, w, t, x);
  }

  lemma Kid2Step(s: Shared, w: Writer, t: Shared, x: Writer)
    requires MemoryOk(s, w) && w.pc == InsKid2 && DoKid2(s, w, t, x)
    ensures StepOk(s, t, x)
  {
    KidCore(s, w, t, x);
    Kid2Holder(s, w, t, x);
    CompressedFrame(s, w, t, x);
    WindowFromGrace(t, x);
  }

  lemma DepthHolder(s: Shared, w: Writer, t: Shared, x: Writer)
    requires HolderOk(s, w) && TreeOk(s) && HandsOk(s) && w.pc == InsDepth && DoDepth(s, w, t, x)
    ensures HolderOk(t, x)
  {
    DepthLocal(s, w, t, x);
    RestGrace(s, w, t, x);
  }

  lemma DepthStep(s: Shared, w: Writer, t: Shared, x: Writer)
    requires MemoryOk(s, w) && w.pc == InsDepth && DoDepth(s, w, t, x)
    ensures StepOk(s, t, x)
  {
    KidCore(s, w, t, x);
    DepthHolder(s, w, t, x);
    CompressedFrame(s, w, t, x);
    WindowFromGrace(t, x);
  }

  lemma PathHolder(s: Shared, w: Writer, t: Shared, x: Writer)
    requires HolderOk(s, w) && TreeOk(s) && HandsOk(s) && w.pc == InsPath && DoPath(s, w, t, x)
    ensures HolderOk(t, x)
  {
    PathLocal(s, w, t, x);
    RestGrace(s, w, t, x);
  }

  lemma PathStep(s: Shared, w: Writer, t: Shared, x: Writer)
    requires MemoryOk(s, w) && w.pc == InsPath && DoPath(s, w, t, x)
    ensures StepOk(s, t, x)
  {
    KidCore(s, w, t, x);
    PathHolder(s, w, t, x);
    CompressedFrame(s, w, t, x);
    WindowFromGrace(t, x);
  }

  lemma IdleHolder(s: Shared, w: Writer, t: Shared, x: Writer)
    requires HolderOk(s, w) && w.pc == Idle && DoIdle(s, w, t, x)
    ensures HolderOk(t, x)
  {
    RestGrace(s, w, t, x);
  }

  lemma IdleStep(s: Shared, w: Writer, t: Shared, x: Writer)
    requires MemoryOk(s, w) && w.pc == Idle && DoIdle(s, w, t, x)
    ensures StepOk(s, t, x)
  {
    Stay(s, w);
    IdleHolder(s, w, t, x);
    CompressedFrame(s, w, t, x);
    WindowFromGrace(t, x);
  }

  lemma InsertDoneHolder(s: Shared, w: Writer, t: Shared, x: Writer)
    requires HolderOk(s, w) && w.pc == InsDone && DoReturn(s, w, t, x)
    ensures HolderOk(t, x)
  {
    RestGrace(s, w, t, x);
  }

  lemma InsertDoneStep(s: Shared, w: Writer, t: Shared, x: Writer)
    requires MemoryOk(s, w) && w.pc == InsDone && DoReturn(s, w, t, x)
    ensures StepOk(s, t, x)
  {
    Stay(s, w);
    InsertDoneHolder(s, w, t, x);
    CompressedFrame(s, w, t, x);
    WindowFromGrace(t, x);
  }

  lemma RemoveDoneHolder(s: Shared, w: Writer, t: Shared, x: Writer)
    requires HolderOk(s, w) && w.pc == RemDone && DoReturn(s, w, t, x)
    ensures HolderOk(t, x)
  {
    RestGrace(s, w, t, x);
  }

  lemma RemoveDoneStep(s: Shared, w: Writer, t: Shared, x: Writer)
    requires MemoryOk(s, w) && w.pc == RemDone && DoReturn(s, w, t, x)
    ensures StepOk(s, t, x)
  {
    Stay(s, w);
    RemoveDoneHolder(s, w, t, x);
    CompressedFrame(s, w, t, x);
    WindowFromGrace(t, x);
  }

  lemma RemStartHolder(s: Shared, w: Writer, t: Shared, x: Writer)
    requires HolderOk(s, w) && TreeOk(s) && w.pc == RemStart && DoRemStart(s, w, t, x)
    ensures HolderOk(t, x)
  {
    RemStartLocal(s, w, x);
    RestGrace(s, w, t, x);
  }

  lemma RemStartStep(s: Shared, w: Writer, t: Shared, x: Writer)
    requires MemoryOk(s, w) && w.pc == RemStart && DoRemStart(s, w, t, x)
    ensures StepOk(s, t, x)
  {
    Stay(s, w);
    RemStartHolder(s, w, t, x);
    CompressedFrame(s, w, t, x);
    WindowFromGrace(t, x);
  }

  lemma PutLeafHolder(s: Shared, w: Writer, t: Shared, x: Writer)
    requires HolderOk(s, w) && w.pc == InsPutLeaf && DoPutLeaf(s, w, t, x) && w.key !in w.base
    ensures HolderOk(t, x)
  {
    RestGrace(s, w, t, x);
  }

  lemma PutLeafCompressed(s: Shared, w: Writer, t: Shared, x: Writer)
    requires CompressedBut(s, w) && w.pc == InsPutLeaf && DoPutLeaf(s, w, t, x) && LeafAdded(s.h, t.h, w.slot, w.k)
    ensures CompressedBut(t, x)
  {
    CompressedNow(s, w);
    LeafAddedCompressed(s.h, t.h, w.slot, w.k);
    CompressedNow(t, x);
  }

  lemma PutLeafStep(s: Shared, w: Writer, t: Shared, x: Writer)
    requires MemoryOk(s, w) && w.pc == InsPutLeaf && DoPutLeaf(s, w, t, x)
    ensures StepOk(s, t, x)
  {
    PutLeafTree(s, w, t, x);
    PutLeafEvolves(s, w, t, x);
    PutLeafRetired(s, w, t, x);
    PutLeafPools(s, w, t, x);
    PutLeafWild(s, w, t, x);
    PutLeafHolder(s, w, t, x);
    PutLeafCompressed(s, w, t, x);
    WindowFromGrace(t, x);
  }

  lemma PublishHolder(s: Shared, w: Writer, t: Shared, x: Writer)
    requires HolderOk(s, w) && w.pc == InsPublish && DoPublish(s, w, t, x) && w.key !in w.base
    ensures HolderOk(t, x)
  {
    RestGrace(s, w, t, x);
  }

  lemma PublishCompressed(s: Shared, w: Writer, t: Shared, x: Writer)
    requires CompressedBut(s, w) && w.pc == InsPublish && DoPublish(s, w, t, x) && NodeAdded(s.h, t.h, w.slot, w.b, w.k)
    ensures CompressedBut(t, x)
  {
    CompressedNow(s, w);
    NodeAddedCompressed(s.h, t.h, w.slot, w.b, w.k);
    CompressedNow(t, x);
  }

  lemma PublishStep(s: Shared, w: Writer, t: Shared, x: Writer)
    requires MemoryOk(s, w) && w.pc == InsPublish && DoPublish(s, w, t, x)
    ensures StepOk(s, t, x)
  {
    PublishTree(s, w, t, x);
    PublishEvolves(s, w, t, x);
    PublishRetired(s, w, t, x);
    PublishPools(s, w, t, x);
    PublishWild(s, w, t, x);
    PublishHolder(s, w, t, x);
    PublishCompressed(s, w, t, x);
    WindowFromGrace(t, x);
  }

  lemma UpdateHolder(s: Shared, w: Writer, t: Shared, x: Writer)
    requires HolderOk(s, w) && w.pc == InsUpdate && DoUpdate(s, w, t, x)
    ensures HolderOk(t, x)
  {
    RestGrace(s, w, t, x);
  }

  lemma UpdateCompressed(s: Shared, w: Writer, t: Shared, x: Writer)
    requires CompressedBut(s, w) && w.pc == InsUpdate && DoUpdate(s, w, t, x) && (Compressed(s.h) ==> Compressed(t.h))
    ensures CompressedBut(t, x)
  {
    CompressedNow(s, w);
    CompressedNow(t, x);
  }

  lemma UpdateStep(s: Shared, w: Writer, t: Shared, x: Writer)
    requires MemoryOk(s, w) && w.pc == InsUpdate && DoUpdate(s, w, t, x)
    ensures StepOk(s, t, x)
  {
    UpdateTree(s, w, t, x);
    UpdateEvolves(s, w, t, x);
    UpdateRest(s, w, t, x);
    UpdateHolder(s, w, t, x);
    UpdateCompressed(s, w, t, x);
    WindowFromGrace(t, x);
  }

  // ---------- remove ----------

  /** A step of a remove that leaves the node ring at the same point. */
  lemma NodeRingStays(s: Shared, w: Writer, t: Shared, x: Writer)
    requires NodeGrace(s, w) && PhaseN(x.pc) == PhaseN(w.pc) && x.r == w.r && (PhaseN(w.pc) == Out ==> x.b == w.b)
    requires t.count == s.count && t.retN == s.retN && t.pendN == s.pendN
    ensures NodeGrace(t, x)
  {
    if PhaseN(w.pc) != Out { GraceCur(s.retN, s.pendN, true, s.count, w.r, PhaseN(w.pc), w.b, x.b); }
  }

  /** A step of a remove that leaves the leaf ring at the same point. */
  lemma LeafRingStays(s: Shared, w: Writer, t: Shared, x: Writer)
    requires LeafGrace(s, w) && PhaseL(x.pc) == PhaseL(w.pc) && x.r == w.r && (PhaseL(w.pc) == Out ==> x.k == w.k)
    requires t.count == s.count && t.retL == s.retL && t.pendL == s.pendL
    ensures LeafGrace(t, x)
  {
    if PhaseL(w.pc) != Out { GraceCur(s.retL, s.pendL, false, s.count, w.r, PhaseL(w.pc), w.k, x.k); }
  }

  lemma BumpNodes(s: Shared, w: Writer, t: Shared, x: Writer)
    requires NodeGrace(s, w) && w.pc == RemBump && DoBump(s, w, t, x)
    ensures NodeGrace(t, x)
  {
    GraceBump(s.retN, s.pendN, true, s.count, w.r, w.b);
  }

  lemma BumpLeaves(s: Shared, w: Writer, t: Shared, x: Writer)
    requires LeafGrace(s, w) && w.pc == RemBump && DoBump(s, w, t, x)
    ensures LeafGrace(t, x)
  {
    GraceBump(s.retL, s.pendL, false, s.count, w.r, w.k);
  }

  lemma BumpStep(s: Shared, w: Writer, t: Shared, x: Writer)
    requires MemoryOk(s, w) && w.pc == RemBump && DoBump(s, w, t, x)
    ensures StepOk(s, t, x)
  {
    BumpNodes(s, w, t, x);
    BumpLeaves(s, w, t, x);
    WindowFromGrace(t, x);
    BumpEvolves(s, w, t, x);
    BumpRetired(s, w, t, x);
    PoolsFrame(s, t);
    WildFrame(s, t);
    CompressedFrame(s, w, t, x);
  }

  lemma FreeN1None(s: Shared, w: Writer, t: Shared, x: Writer)
    requires NodeGrace(s, w) && w.pc == RemFreeN1 && DoFreeN1(s, w, t, x) && s.pendN[Cell(w.r)] == Null
    ensures NodeGrace(t, x) && t == s && x == w.(pc := RemFreeL1)
  {
    GraceNoneDue(s.retN, s.pendN, true, s.count, w.r, w.b);
  }

  lemma FreeN1Some(s: Shared, w: Writer, t: Shared, x: Writer) returns (a: nat)
    requires NodeGrace(s, w) && w.pc == RemFreeN1 && DoFreeN1(s, w, t, x) && s.pendN[Cell(w.r)] != Null
    ensures NodeGrace(t, x)
    ensures NodeFreed(s, t, a) && s.retN[a].r + DELETED_LIFE + 1 == s.count && x == w.(pc := RemFreeN2, b := a)
  {
    a := GraceFree(s.retN, s.pendN, true, s.count, w.r, w.b);
  }

  lemma FreeN1Local(s: Shared, w: Writer, t: Shared, x: Writer, a: nat)
    requires LocalOk(s, w) && w.pc == RemFreeN1 && NodeFreed(s, t, a) && x == w.(pc := RemFreeN2, b := a)
    ensures LocalOk(t, x)
  {
  }

  lemma FreeN1NoneStep(s: Shared, w: Writer, t: Shared, x: Writer)
    requires MemoryOk(s, w) && w.pc == RemFreeN1 && DoFreeN1(s, w, t, x) && s.pendN[Cell(w.r)] == Null
    ensures StepOk(s, t, x)
  {
    FreeN1None(s, w, t, x);
    LeafRingStays(s, w, t, x);
    Stay(s, w);
    CompressedFrame(s, w, t, x);
  }

  lemma FreeN1SomeStep(s: Shared, w: Writer, t: Shared, x: Writer)
    requires MemoryOk(s, w) && w.pc == RemFreeN1 && DoFreeN1(s, w, t, x) && s.pendN[Cell(w.r)] != Null
    ensures StepOk(s, t, x)
  {
    var a := FreeN1Some(s, w, t, x);
    LeafRingStays(s, w, t, x);
    NodeFreedCore(s, w, t, a);
    FreeN1Local(s, w, t, x, a);
    OnlyLiveCompressed(s, w, t, x);
  }

  lemma FreeN1Step(s: Shared, w: Writer, t: Shared, x: Writer)
    requires MemoryOk(s, w) && w.pc == RemFreeN1 && DoFreeN1(s, w, t, x)
    ensures StepOk(s, t, x)
  {
    if s.pendN[Cell(w.r)] == Null {
      FreeN1NoneStep(s, w, t, x);
    } else {
      FreeN1SomeStep(s, w, t, x);
    }
  }

  lemma FreeN2Local(s: Shared, w: Writer, t: Shared, x: Writer)
    requires LocalOk(s, w) && w.pc == RemFreeN2 && DoFreeN2(s, w, t, x)
    ensures LocalOk(t, x)
  {
  }

  lemma FreeN2Step(s: Shared, w: Writer, t: Shared, x: Writer)
    requires MemoryOk(s, w) && w.pc == RemFreeN2 && DoFreeN2(s, w, t, x)
    ensures StepOk(s, t, x)
  {
    FreeN2Local(s, w, t, x);
    NodeRingStays(s, w, t, x);
    LeafRingStays(s, w, t, x);
    PushNodeCore(s, w, t);
    CompressedFrame(s, w, t, x);
  }

  lemma FreeL1None(s: Shared, w: Writer, t: Shared, x: Writer)
    requires LeafGrace(s, w) && w.pc == RemFreeL1 && DoFreeL1(s, w, t, x) && s.pendL[Cell(w.r)] == Null
    ensures LeafGrace(t, x) && t == s && x == w.(pc := RemClearN)
  {
    GraceNoneDue(s.retL, s.pendL, false, s.count, w.r, w.k);
  }

  lemma FreeL1Some(s: Shared, w: Writer, t: Shared, x: Writer) returns (a: nat)
    requires LeafGrace(s, w) && w.pc == RemFreeL1 && DoFreeL1(s, w, t, x) && s.pendL[Cell(w.r)] != Null
    ensures LeafGrace(t, x)
    ensures LeafFreed(s, t, a) && s.retL[a].r + DELETED_LIFE + 1 == s.count && x == w.(pc := RemFreeL2, k := a)
  {
    a := GraceFree(s.retL, s.pendL, false, s.count, w.r, w.k);
  }

  lemma FreeL1Local(s: Shared, w: Writer, t: Shared, x: Writer, a: nat)
    requires LocalOk(s, w) && w.pc == RemFreeL1 && LeafFreed(s, t, a) && x == w.(pc := RemFreeL2, k := a)
    ensures LocalOk(t, x)
  {
  }

  lemma FreeL1NoneStep(s: Shared, w: Writer, t: Shared, x: Writer)
    requires MemoryOk(s, w) && w.pc == RemFreeL1 && DoFreeL1(s, w, t, x) && s.pendL[Cell(w.r)] == Null
    ensures StepOk(s, t, x)
  {
    FreeL1None(s, w, t, x);
    NodeRingStays(s, w, t, x);
    Stay(s, w);
    CompressedFrame(s, w, t, x);
  }

  lemma FreeL1SomeStep(s: Shared, w: Writer, t: Shared, x: Writer)
    requires MemoryOk(s, w) && w.pc == RemFreeL1 && DoFreeL1(s, w, t, x) && s.pendL[Cell(w.r)] != Null
    ensures StepOk(s, t, x)
  {
    var a := FreeL1Some(s, w, t, x);
    NodeRingStays(s, w, t, x);
    LeafFreedCore(s, t, a);
    FreeL1Local(s, w, t, x, a);
    OnlyLiveCompressed(s, w, t, x);
  }

  lemma FreeL1Step(s: Shared, w: Writer, t: Shared, x: Writer)
    requires MemoryOk(s, w) && w.pc == RemFreeL1 && DoFreeL1(s, w, t, x)
    ensures StepOk(s, t, x)
  {
    if s.pendL[Cell(w.r)] == Null {
      FreeL1NoneStep(s, w, t, x);
    } else {
      FreeL1SomeStep(s, w, t, x);
    }
  }

  lemma FreeL2Local(s: Shared, w: Writer, t: Shared, x: Writer)
    requires LocalOk(s, w) && w.pc == RemFreeL2 && DoFreeL2(s, w, t, x)
    ensures LocalOk(t, x)
  {
  }

  lemma FreeL2Step(s: Shared, w: Writer, t: Shared, x: Writer)
    requires MemoryOk(s, w) && w.pc == RemFreeL2 && DoFreeL2(s, w, t, x)
    ensures StepOk(s, t, x)
  {
    FreeL2Local(s, w, t, x);
    NodeRingStays(s, w, t, x);
    LeafRingStays(s, w, t, x);
    PushLeafCore(s, w, t);
    CompressedFrame(s, w, t, x);
  }

  lemma ClearNNodes(s: Shared, w: Writer, t: Shared, x: Writer)
    requires NodeGrace(s, w) && LocalOk(s, w) && w.pc == RemClearN && DoClearN(s, w, t, x)
    ensures NodeGrace(t, x) && LocalOk(t, x)
  {
    GraceClear(s.retN, s.pendN, true, s.count, w.r, w.b);
  }

  lemma ClearNStep(s: Shared, w: Writer, t: Shared, x: Writer)
    requires MemoryOk(s, w) && w.pc == RemClearN && DoClearN(s, w, t, x)
    ensures StepOk(s, t, x)
  {
    ClearNNodes(s, w, t, x);
    LeafRingStays(s, w, t, x);
    RingStoreCore(s, w, t, t.pendN, t.pendL);
    CompressedFrame(s, w, t, x);
  }

  lemma ClearLLeaves(s: Shared, w: Writer, t: Shared, x: Writer)
    requires LeafGrace(s, w) && w.pc == RemClearL && DoClearL(s, w, t, x)
    ensures LeafGrace(t, x)
  {
    GraceClear(s.retL, s.pendL, false, s.count, w.r, w.k);
  }

  lemma ClearLStep(s: Shared, w: Writer, t: Shared, x: Writer)
    requires MemoryOk(s, w) && w.pc == RemClearL && DoClearL(s, w, t, x)
    ensures StepOk(s, t, x)
  {
    ClearLLeaves(s, w, t, x);
    ClearLLocal(s, w, t, x);
    NodeRingStays(s, w, t, x);
    RingStoreCore(s, w, t, t.pendN, t.pendL);
    CompressedFrame(s, w, t, x);
  }

  lemma RemDescendNodes(s: Shared, w: Writer, t: Shared, x: Writer)
    requires NodeGrace(s, w) && w.pc == RemDescend && DoRemDescend(s, w, t, x)
    ensures NodeGrace(t, x)
  {
    GraceSkip(s.retN, s.pendN, true, s.count, w.r, w.b);
  }

  lemma RemDescendLeaves(s: Shared, w: Writer, t: Shared, x: Writer)
    requires LeafGrace(s, w) && w.pc == RemDescend && DoRemDescend(s, w, t, x)
    ensures LeafGrace(t, x)
  {
    GraceSkip(s.retL, s.pendL, false, s.count, w.r, w.k);
    GraceCur(s.retL, s.pendL, false, s.count, w.r, Empty, w.k, x.k);
  }

  lemma RemDescendStep(s: Shared, w: Writer, t: Shared, x: Writer)
    requires MemoryOk(s, w) && w.pc == RemDescend && DoRemDescend(s, w, t, x)
    ensures StepOk(s, t, x)
  {
    RemDescendLocal(s, w, x);
    RemDescendNodes(s, w, t, x);
    RemDescendLeaves(s, w, t, x);
    Stay(s, w);
    CompressedFrame(s, w, t, x);
  }

  lemma UnlinkNodes(s: Shared, w: Writer, t: Shared, x: Writer)
    requires NodeGrace(s, w) && w.pc == RemUnlink && DoUnlink(s, w, t, x)
    ensures NodeGrace(t, x) && AllBefore(s, w.r) && s.count == w.r + 1
  {
    GraceSkip(s.retN, s.pendN, true, s.count, w.r, w.b);
    GraceCur(s.retN, s.pendN, true, s.count, w.r, Empty, w.b, x.b);
  }

  lemma UnlinkFields(s: Shared, w: Writer, t: Shared, x: Writer)
    requires w.pc == RemUnlink && DoUnlink(s, w, t, x)
    ensures t.retL == s.retL[w.k := Ret(w.r, |s.hist| - 1)] && t.pendL == s.pendL && t.count == s.count
    ensures x.r == w.r && x.k == w.k && PhaseL(x.pc) == Out
  {
  }

  lemma UnlinkLeaves(s: Shared, w: Writer, t: Shared, x: Writer, z: Ret)
    requires LeafGrace(s, w) && PhaseL(w.pc) == Empty && w.k !in s.retL && z.r == w.r
    requires t.retL == s.retL[w.k := z] && t.pendL == s.pendL && t.count == s.count && x.r == w.r && x.k == w.k &&
      PhaseL(x.pc) == Out
    ensures LeafGrace(t, x)
  {
    GraceUnlink(s.retL, s.pendL, false, s.count, w.r, w.k, w.k, z.at);
  }

  lemma LinkedNotWaiting(s: Shared, p: Ptr)
    requires RetiredOk(s) && Live(s.h, p)
    ensures !Retired(s, p)
  {
  }

  lemma UnlinkCore(s: Shared, w: Writer, t: Shared, x: Writer)
    requires CoreOk(s) && WindowOk(s) && LocalOk(s, w) && AllBefore(s, w.r) && s.count == w.r + 1
    requires w.pc == RemUnlink && DoUnlink(s, w, t, x)
    ensures CoreOk(t) && Evolves(s, t) && LeafRemoved(s.h, t.h, w.slot, w.k)
    ensures w.key in w.base && s.h.leaves[w.k] == Leaf(w.key, w.base[w.key])
  {
    UnlinkTree(s, w, t, x);
    UnlinkEvolves(s, w, t, x);
    UnlinkRetired(s, w, t, x);
    UnlinkPools(s, w, t, x);
  }

  lemma UnlinkHolder(s: Shared, w: Writer, t: Shared, x: Writer)
    requires GraceOk(s, w) && w.k !in s.retL && w.pc == RemUnlink && DoUnlink(s, w, t, x)
    ensures GraceOk(t, x) && AllBefore(s, w.r) && s.count == w.r + 1 && WindowOk(t)
  {
    UnlinkNodes(s, w, t, x);
    UnlinkFields(s, w, t, x);
    UnlinkLeaves(s, w, t, x, Ret(w.r, |s.hist| - 1));
    WindowFromGrace(t, x);
  }

  lemma UnlinkStep(s: Shared, w: Writer, t: Shared, x: Writer)
    requires MemoryOk(s, w) && w.pc == RemUnlink && DoUnlink(s, w, t, x)
    ensures StepOk(s, t, x)
  {
    LinkedNotWaiting(s, L(w.k));
    UnlinkHolder(s, w, t, x);
    UnlinkCore(s, w, t, x);
    UnlinkCompressed(s, w, t, x);
    UnlinkLocal(s, w, t, x);
  }

  lemma CountNodes(s: Shared, w: Writer, x: Writer)
    requires NodeGrace(s, w) && w.pc == RemCount && DoCount(s, w, s, x)
    ensures NodeGrace(s, x)
  {
    GraceSkip(s.retN, s.pendN, true, s.count, w.r, w.b);
  }

  lemma CountLeaves(s: Shared, w: Writer, x: Writer)
    requires LeafGrace(s, w) && w.pc == RemCount && DoCount(s, w, s, x)
    ensures LeafGrace(s, x)
  {
  }

  lemma CountStep(s: Shared, w: Writer, t: Shared, x: Writer)
    requires MemoryOk(s, w) && w.pc == RemCount && DoCount(s, w, t, x)
    ensures StepOk(s, t, x)
  {
    CountNodes(s, w, x);
    CountLeaves(s, w, x);
    CountLocal(s, w, x);
    Stay(s, w);
  }

  lemma SkipFields(s: Shared, w: Writer, t: Shared, x: Writer)
    requires w.pc == RemSkip && DoSkip(s, w, t, x)
    ensures t.retN == s.retN[w.b := Ret(w.r, |s.hist| - 1)] && t.pendN == s.pendN && t.count == s.count
    ensures x.r == w.r && x.b == w.b && PhaseN(x.pc) == Out
  {
  }

  lemma SkipNodes(s: Shared, w: Writer, t: Shared, x: Writer, z: Ret)
    requires NodeGrace(s, w) && PhaseN(w.pc) == Empty && w.b !in s.retN && z.r == w.r
    requires t.retN == s.retN[w.b := z] && t.pendN == s.pendN && t.count == s.count && x.r == w.r && x.b == w.b &&
      PhaseN(x.pc) == Out
    ensures NodeGrace(t, x) && AllBefore(s, w.r) && s.count == w.r + 1
  {
    GraceUnlink(s.retN, s.pendN, true, s.count, w.r, w.b, w.b, z.at);
  }

  lemma SkipLocal(s: Shared, w: Writer, t: Shared, x: Writer)
    requires LocalOk(s, w) && w.pc == RemSkip && DoSkip(s, w, t, x)
    ensures LocalOk(t, x)
  {
  }

  lemma SkipCore(s: Shared, w: Writer, t: Shared, x: Writer)
    requires CoreOk(s) && WindowOk(s) && LocalOk(s, w) && AllBefore(s, w.r) && s.count == w.r + 1
    requires w.pc == RemSkip && DoSkip(s, w, t, x)
    ensures CoreOk(t) && Evolves(s, t) && NodeSkipped(s.h, t.h, w.up, w.b, w.i) && Live(s.h, s.h.nodes[w.b].child[w.i])
  {
    SkipTree(s, w, t, x);
    SkipEvolves(s, w, t, x);
    SkippedNodeOk(s, w, t, x);
    SkipRetired(s, w, t, x);
    SkipPools(s, w, t, x);
    NodeSkippedView(s.h, t.h, w.up, w.b, w.i);
  }

  lemma SkipHolder(s: Shared, w: Writer, t: Shared, x: Writer)
    requires GraceOk(s, w) && w.b !in s.retN && w.pc == RemSkip && DoSkip(s, w, t, x)
    ensures GraceOk(t, x) && AllBefore(s, w.r) && s.count == w.r + 1 && WindowOk(t)
  {
    SkipFields(s, w, t, x);
    SkipNodes(s, w, t, x, Ret(w.r, |s.hist| - 1));
    LeafRingStays(s, w, t, x);
    WindowFromGrace(t, x);
  }

  lemma SkipStep(s: Shared, w: Writer, t: Shared, x: Writer)
    requires MemoryOk(s, w) && w.pc == RemSkip && DoSkip(s, w, t, x)
    ensures StepOk(s, t, x)
  {
    LinkedNotWaiting(s, N(w.b));
    SkipHolder(s, w, t, x);
    SkipCore(s, w, t, x);
    SkipCompressed(s, w, t, x);
    SkipLocal(s, w, t, x);
  }

  lemma PendNNodes(s: Shared, w: Writer, t: Shared, x: Writer)
    requires NodeGrace(s, w) && LocalOk(s, w) && w.pc == RemPendN && DoPendN(s, w, t, x)
    ensures NodeGrace(t, x) && LocalOk(t, x)
  {
    GraceStore(s.retN, s.pendN, true, s.count, w.r, w.b);
  }

  lemma PendNStep(s: Shared, w: Writer, t: Shared, x: Writer)
    requires MemoryOk(s, w) && w.pc == RemPendN && DoPendN(s, w, t, x)
    ensures StepOk(s, t, x)
  {
    PendNNodes(s, w, t, x);
    LeafRingStays(s, w, t, x);
    RingStoreCore(s, w, t, t.pendN, t.pendL);
    CompressedFrame(s, w, t, x);
  }

  lemma ValueLocal(s: Shared, w: Writer, t: Shared, x: Writer)
    requires LocalOk(s, w) && w.pc == RemValue && DoValue(s, w, t, x)
    ensures LocalOk(t, x)
  {
  }

  lemma ValueStep(s: Shared, w: Writer, t: Shared, x: Writer)
    requires MemoryOk(s, w) && w.pc == RemValue && DoValue(s, w, t, x)
    ensures StepOk(s, t, x)
  {
    ValueLocal(s, w, t, x);
    NodeRingStays(s, w, t, x);
    LeafRingStays(s, w, t, x);
    Stay(s, w);
    CompressedFrame(s, w, t, x);
  }

  lemma PendLLeaves(s: Shared, w: Writer, t: Shared, x: Writer)
    requires LeafGrace(s, w) && LocalOk(s, w) && w.pc == RemPendL && DoPendL(s, w, t, x)
    ensures LeafGrace(t, x) && LocalOk(t, x)
  {
    GraceStore(s.retL, s.pendL, false, s.count, w.r, w.k);
  }

  lemma PendLStep(s: Shared, w: Writer, t: Shared, x: Writer)
    requires MemoryOk(s, w) && w.pc == RemPendL && DoPendL(s, w, t, x)
    ensures StepOk(s, t, x)
  {
    PendLLeaves(s, w, t, x);
    NodeRingStays(s, w, t, x);
    RingStoreCore(s, w, t, t.pendN, t.pendL);
    CompressedFrame(s, w, t, x);
  }
}
