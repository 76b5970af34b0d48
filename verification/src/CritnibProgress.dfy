/**
  No step ever waits for something that cannot come: the lock holder and every reader can go on from
  every state of every run, so the assertions and lookups that the steps rely on never fail.
 */
module CritnibProgress {
  import opened CritnibHeap
  import opened CritnibMachine
  import opened CritnibInvariant
  import opened CritnibRemovers
  import opened CritnibTheorems
  import opened CritnibOrder
  import CritnibSearch

  lemma AllocLeafGoes(s: Shared, w: Writer) returns (t: Shared, x: Writer)
    requires PoolsOk(s)
    ensures DoAllocLeaf(s, w, t, x)
  {
    if s.poolL == 0 {
      t, x := s, w.(pc := InsDone, code := NoMem);
    } else {
      assert s.freeL[0] in s.h.leaves;
      t := s.(poolL := s.h.leaves[s.poolL].value, freeL := s.freeL[1..], handL := {s.poolL});
      x := w.(pc := InsSetKey, k := s.poolL);
    }
  }

  /** The stores into the leaf in hand, and its way back to the pool. */
  lemma LeafGoes(s: Shared, w: Writer) returns (t: Shared, x: Writer)
    requires HandsOk(s) && w.k in s.handL
    requires w.pc == InsSetKey || w.pc == InsSetValue || w.pc == InsFreeLeaf1
    ensures WriterNext(s, w, t, x)
  {
    if w.pc == InsSetKey {
      t, x := s.(h := SetLeaf(s.h, w.k, s.h.leaves[w.k].(key := w.key))), w.(pc := InsSetValue);
    } else if w.pc == InsSetValue {
      t, x := s.(h := SetLeaf(s.h, w.k, s.h.leaves[w.k].(value := w.v))), w.(pc := InsLoadRoot);
    } else {
      t, x := s.(h := SetLeaf(s.h, w.k, s.h.leaves[w.k].(value := s.poolL))), w.(pc := InsFreeLeaf2);
    }
  }

  lemma DescendGoes(s: Shared, w: Writer) returns (x: Writer)
    requires NoWildLinks(s) && TreeOk(s) && AtSlot(s, w)
    ensures DoDescend(s, w, s, x)
  {
    match w.n
    case Null => x := w.(pc := InsPutLeaf);
    case N(a) =>
      assert Live(s.h, w.n);
      if s.h.nodes[a].path <= w.key {
        var next := ChildSlot(a, w.key[s.h.nodes[a].depth]);
        x := w.(slot := next, n := Read(s.h, next));
      } else {
        x := w.(pc := InsAllocNode);
      }
    case L(a) =>
      assert Live(s.h, w.n);
      if s.h.leaves[a].key == w.key {
        x := w.(pc := InsFreeLeaf1, after := if w.update then ToUpdate else ToExist, b := a);
      } else {
        x := w.(pc := InsAllocNode);
      }
  }

  lemma InsertGoes(s: Shared, w: Writer) returns (t: Shared, x: Writer)
    requires CoreOk(s) && LocalOk(s, w) && Part(w.pc) == 0
    ensures WriterNext(s, w, t, x)
  {
    match w.pc
    case Idle => t, x := s, w.(pc := InsAllocLeaf, base := Last(s.hist));
    case InsAllocLeaf => t, x := AllocLeafGoes(s, w);
    case InsSetKey => t, x := LeafGoes(s, w);
    case InsSetValue => t, x := LeafGoes(s, w);
    case InsLoadRoot =>
      t, x := s, w.(pc := if s.h.root == Null then InsPutLeaf else InsDescend, slot := RootSlot, n := s.h.root);
    case InsDescend =>
      t := s;
      x := DescendGoes(s, w);
    case InsPutLeaf =>
      x := w.(pc := InsDone, code := Ok);
      t := s.(h := Write(s.h, w.slot, L(w.k)).(ll := s.h.ll + {w.k}), handL := {},
              hist := s.hist + [Last(s.hist)[w.key := w.v]]);
    case InsFreeLeaf1 => t, x := LeafGoes(s, w);
    case InsFreeLeaf2 =>
      t := s.(poolL := w.k, freeL := [w.k] + s.freeL, handL := {});
      x := if w.after == ToUpdate then w.(pc := InsUpdate)
           else w.(pc := InsDone, code := if w.after == ToExist then Exist else NoMem);
  }

  lemma AllocNodeGoes(s: Shared, w: Writer) returns (t: Shared, x: Writer)
    requires PoolsOk(s)
    ensures DoAllocNode(s, w, t, x)
  {
    if s.poolN == Null {
      t, x := s, w.(pc := InsFreeLeaf1, after := ToNoMem);
    } else {
      assert s.freeN[0] in s.h.nodes;
      t := s.(poolN := s.h.nodes[s.poolN.a].child[0], freeN := s.freeN[1..], handN := {s.poolN.a});
      x := w.(pc := InsClear, b := s.poolN.a, i := 0);
    }
  }

  lemma ClearGoes(s: Shared, w: Writer) returns (t: Shared, x: Writer)
    requires w.b in s.h.nodes
    ensures DoClear(s, w, t, x)
  {
    if w.i < 16 {
      t, x := s.(h := SetKid(s.h, w.b, w.i, Null)), w.(i := w.i + 1);
    } else {
      t, x := s, w.(pc := InsKid1);
    }
  }

  /** The stores into the new node: the key does leave the location of the link it is split from. */
  lemma SplitGoes(s: Shared, w: Writer) returns (t: Shared, x: Writer)
    requires w.b in s.h.nodes && Split(s.h, w.key, w.n)
    requires w.pc == InsKid1 || w.pc == InsKid2 || w.pc == InsDepth || w.pc == InsPath
    ensures WriterNext(s, w, t, x)
  {
    var d := SplitAt(s.h, w.key, w.n);
    if w.pc == InsKid1 {
      t, x := s.(h := SetKid(s.h, w.b, w.key[d], L(w.k))), w.(pc := InsKid2);
    } else if w.pc == InsKid2 {
      t, x := s.(h := SetKid(s.h, w.b, LocOf(s.h, w.n)[d], w.n)), w.(pc := InsDepth);
    } else if w.pc == InsDepth {
      t, x := s.(h := SetNode(s.h, w.b, s.h.nodes[w.b].(depth := d))), w.(pc := InsPath);
    } else {
      t, x := s.(h := SetNode(s.h, w.b, s.h.nodes[w.b].(path := w.key[..d]))), w.(pc := InsPublish);
    }
  }

  lemma SplittingGoes(s: Shared, w: Writer) returns (t: Shared, x: Writer)
    requires CoreOk(s) && LocalOk(s, w) && Part(w.pc) == 1
    ensures WriterNext(s, w, t, x)
  {
    match w.pc
    case InsUpdate =>
      x := w.(pc := InsDone, code := Ok);
      t := s.(h := SetLeaf(s.h, w.b, s.h.leaves[w.b].(value := w.v)), hist := s.hist + [Last(s.hist)[w.key := w.v]]);
    case InsAllocNode => t, x := AllocNodeGoes(s, w);
    case InsClear => t, x := ClearGoes(s, w);
    case InsKid1 => t, x := SplitGoes(s, w);
    case InsKid2 => t, x := SplitGoes(s, w);
    case InsDepth => t, x := SplitGoes(s, w);
    case InsPath => t, x := SplitGoes(s, w);
    case InsPublish =>
      x := w.(pc := InsDone, code := Ok);
      t := s.(h := Write(s.h, w.slot, N(w.b)).(ln := s.h.ln + {w.b}, ll := s.h.ll + {w.k}), handN := {}, handL := {},
              hist := s.hist + [Last(s.hist)[w.key := w.v]]);
    case InsDone => t, x := s, w.(pc := Idle);
  }

  lemma FreeN1Goes(s: Shared, w: Writer) returns (t: Shared, x: Writer)
    requires RetiredOk(s) && NodeGrace(s, w) && w.pc == RemFreeN1
    ensures DoFreeN1(s, w, t, x)
  {
    var p := s.pendN[w.r % DELETED_LIFE];
    if p == Null {
      t, x := s, w.(pc := RemFreeL1);
    } else {
      assert p.N? && p.a in s.retN && RetiredNodeOk(s, p.a);
      x := w.(pc := RemFreeN2, b := p.a);
      t := s.(h := SetKid(s.h, p.a, 0, s.poolN), retN := s.retN - {p.a}, handN := {p.a});
    }
  }

  lemma FreeL1Goes(s: Shared, w: Writer) returns (t: Shared, x: Writer)
    requires RetiredOk(s) && LeafGrace(s, w) && w.pc == RemFreeL1
    ensures DoFreeL1(s, w, t, x)
  {
    var p := s.pendL[w.r % DELETED_LIFE];
    if p == Null {
      t, x := s, w.(pc := RemClearN);
    } else {
      assert p.L? && p.a in s.retL && RetiredLeafOk(s, p.a);
      x := w.(pc := RemFreeL2, k := p.a);
      t := s.(h := SetLeaf(s.h, p.a, s.h.leaves[p.a].(value := s.poolL)), retL := s.retL - {p.a}, handL := {p.a});
    }
  }

  lemma FreeingGoes(s: Shared, w: Writer) returns (t: Shared, x: Writer)
    requires RetiredOk(s) && GraceOk(s, w) && Part(w.pc) == 2
    ensures WriterNext(s, w, t, x)
  {
    match w.pc
    case RemStart =>
      t := s;
      x := if s.h.root == Null then w.(pc := RemDone, res := 0) else w.(pc := RemBump);
    case RemBump => t, x := s.(count := s.count + 1), w.(pc := RemFreeN1, r := s.count);
    case RemFreeN1 => t, x := FreeN1Goes(s, w);
    case RemFreeN2 => t, x := s.(poolN := N(w.b), freeN := [w.b] + s.freeN, handN := {}), w.(pc := RemFreeL1);
    case RemFreeL1 => t, x := FreeL1Goes(s, w);
    case RemFreeL2 => t, x := s.(poolL := w.k, freeL := [w.k] + s.freeL, handL := {}), w.(pc := RemClearN);
    case RemClearN => t, x := s.(pendN := s.pendN[w.r % DELETED_LIFE := Null]), w.(pc := RemClearL);
    case RemClearL =>
      t := s.(pendL := s.pendL[w.r % DELETED_LIFE := Null]);
      x := w.(pc := RemDescend, up := RootSlot, slot := RootSlot, n := s.h.root);
  }

  lemma RemDescendGoes(s: Shared, w: Writer) returns (x: Writer)
    requires TreeOk(s) && AtSlotLoose(s, w)
    ensures DoRemDescend(s, w, s, x)
  {
    match w.n
    case Null => x := w.(pc := RemDone, res := 0);
    case N(a) =>
      assert Live(s.h, w.n);
      var next := ChildSlot(a, w.key[s.h.nodes[a].depth]);
      x := w.(up := w.slot, slot := next, n := Read(s.h, next));
    case L(a) =>
      assert Live(s.h, w.n);
      x := if s.h.leaves[a].key == w.key then w.(pc := RemUnlink, k := a) else w.(pc := RemDone, res := 0);
  }

  /** A child remains in the node that lost one: the assertion of the source holds. */
  lemma CountGoes(s: Shared, w: Writer) returns (x: Writer)
    requires w.b in s.h.nodes && OneKid(s.h.nodes[w.b])
    ensures DoCount(s, w, s, x)
  {
    if TwoKids(s.h.nodes[w.b]) {
      x := w.(pc := RemValue);
    } else {
      var i := SomeKidRemains(s.h.nodes[w.b]);
      x := w.(pc := RemSkip, i := i);
    }
  }

  lemma UnlinkingGoes(s: Shared, w: Writer) returns (t: Shared, x: Writer)
    requires TreeOk(s) && LocalOk(s, w) && Part(w.pc) == 3
    ensures WriterNext(s, w, t, x)
  {
    match w.pc
    case RemDescend =>
      t := s;
      x := RemDescendGoes(s, w);
    case RemUnlink =>
      t := s.(h := Write(s.h, w.slot, Null).(ll := s.h.ll - {w.k}), hist := s.hist + [Last(s.hist) - {w.key}],
              retL := s.retL[w.k := Ret(w.r, |s.hist| - 1)]);
      x := if w.slot.RootSlot? then w.(pc := RemValue) else w.(pc := RemCount, b := w.slot.a);
    case RemCount =>
      t := s;
      x := CountGoes(s, w);
    case RemSkip =>
      t := s.(h := Write(s.h, w.up, s.h.nodes[w.b].child[w.i]).(ln := s.h.ln - {w.b}),
              retN := s.retN[w.b := Ret(w.r, |s.hist| - 1)]);
      x := w.(pc := RemPendN);
    case RemPendN => t, x := s.(pendN := s.pendN[w.r % DELETED_LIFE := N(w.b)]), w.(pc := RemValue);
    case RemValue => t, x := s, w.(pc := RemPendL, res := s.h.leaves[w.k].value);
    case RemPendL => t, x := s.(pendL := s.pendL[w.r % DELETED_LIFE := L(w.k)]), w.(pc := RemDone);
    case RemDone => t, x := s, w.(pc := Idle);
  }

  lemma WriterGoes(s: Shared, w: Writer) returns (t: Shared, x: Writer)
    requires MemoryOk(s, w)
    ensures WriterNext(s, w, t, x)
  {
    if Part(w.pc) == 0 {
      t, x := InsertGoes(s, w);
    } else if Part(w.pc) == 1 {
      t, x := SplittingGoes(s, w);
    } else if Part(w.pc) == 2 {
      t, x := FreeingGoes(s, w);
    } else {
      t, x := UnlinkingGoes(s, w);
    }
  }

  /**
    Where an insert is about to split an inner node off, the exclusive or of the node's stored path and
    the key is not zero: a full match is found only at a leaf.
   */
  lemma FullMatchOnlyAtLeaf(run: seq<Sys>, m: nat)
    requires IsRun(run) && m < |run| && run[m].w.pc == InsAllocNode && run[m].w.n.N?
    ensures var s, w := run[m].s, run[m].w;
      && w.n.a in s.h.nodes && |s.h.nodes[w.n.a].path| <= 16
      && Val(CritnibSearch.Pad(s.h.nodes[w.n.a].path)) != Val(w.key)
  {
    RunOk(run, m);
    var s, w := run[m].s, run[m].w;
    assert AtSplit(s, w);
    var path := s.h.nodes[w.n.a].path;
    var padded := CritnibSearch.Pad(path);
    assert path <= padded;
    if Val(padded) == Val(w.key) { ValInjective(padded, w.key); }
  }

  /** From every state of every run the lock holder has a next step. */
  lemma LockHolderGoesOn(run: seq<Sys>, m: nat) returns (z: Sys)
    requires IsRun(run) && m < |run|
    ensures WriterStep(run[m], z)
  {
    RunOk(run, m);
    var t, x := WriterGoes(run[m].s, run[m].w);
    z := Sys(t, x, run[m].readers);
  }

  /** And so has every reader, whatever the lock holder is doing. */
  lemma ReadersGoOn(run: seq<Sys>, m: nat, i: nat) returns (z: Sys)
    requires IsRun(run) && m < |run| && i in run[m].readers
    ensures ReaderStep(run[m], z, i)
  {
    RunOk(run, m);
    ReadersNeverStray(run, m, i);
    z := run[m].(readers := run[m].readers[i := ReaderNext(run[m].s, run[m].readers[i])]);
  }

  // ---------- inserts and removes end ----------

  /** How many nibbles of the key the descent has passed. */
  ghost function Passed(s: Shared, w: Writer): nat {
    if LiveSlot(s.h, w.slot) && |Pre(s.h, w.slot)| <= 16 then |Pre(s.h, w.slot)| else 0
  }

  /** More than the steps the lock holder has still to make. */
  ghost function StepsLeft(s: Shared, w: Writer): nat {
    match w.pc
    case Idle => 0
    case InsAllocLeaf => 60
    case InsSetKey => 59
    case InsSetValue => 58
    case InsLoadRoot => 57
    case InsDescend => 56 - Passed(s, w)
    case InsAllocNode => 39
    case InsClear => 37 - if w.i <= 16 then w.i else 16
    case InsKid1 => 20
    case InsKid2 => 19
    case InsDepth => 18
    case InsPath => 17
    case InsPublish => 16
    case InsPutLeaf => 16
    case InsFreeLeaf1 => 15
    case InsFreeLeaf2 => 14
    case InsUpdate => 13
    case InsDone => 1
    case RemStart => 60
    case RemBump => 59
    case RemFreeN1 => 58
    case RemFreeN2 => 57
    case RemFreeL1 => 56
    case RemFreeL2 => 55
    case RemClearN => 54
    case RemClearL => 53
    case RemDescend => 52 - Passed(s, w)
    case RemUnlink => 35
    case RemCount => 34
    case RemSkip => 33
    case RemPendN => 32
    case RemValue => 31
    case RemPendL => 30
    case RemDone => 1
  }

  /** A node below a slot branches on a later nibble. */
  lemma Deeper(s: Shared, w: Writer, a: nat, i: Nib)
    requires TreeOk(s) && LiveSlot(s.h, w.slot) && w.n == Get(s.h, w.slot) == N(a)
    ensures a in s.h.nodes && LiveSlot(s.h, ChildSlot(a, i))
    ensures |Pre(s.h, w.slot)| < |Pre(s.h, ChildSlot(a, i))| <= 16
  {
    assert Live(s.h, w.n) && Pre(s.h, w.slot) <= Loc(s.h, w.n);
  }

  lemma DescendEnds(s: Shared, w: Writer, t: Shared, x: Writer)
    requires TreeOk(s) && LiveSlot(s.h, w.slot) && w.n == Get(s.h, w.slot) && w.pc == InsDescend &&
      DoDescend(s, w, t, x)
    ensures StepsLeft(t, x) < StepsLeft(s, w)
  {
    if w.n.N? && w.n.a in s.h.nodes {
      Deeper(s, w, w.n.a, w.key[s.h.nodes[w.n.a].depth]);
    }
  }

  lemma RemDescendEnds(s: Shared, w: Writer, t: Shared, x: Writer)
    requires TreeOk(s) && LiveSlot(s.h, w.slot) && w.n == Get(s.h, w.slot) && w.pc == RemDescend &&
      DoRemDescend(s, w, t, x)
    ensures StepsLeft(t, x) < StepsLeft(s, w)
  {
    if w.n.N? && w.n.a in s.h.nodes {
      Deeper(s, w, w.n.a, w.key[s.h.nodes[w.n.a].depth]);
    }
  }

  lemma InsertEnds(s: Shared, w: Writer, t: Shared, x: Writer)
    requires WriterNext(s, w, t, x) && Part(w.pc) == 0 && w.pc != Idle && w.pc != InsDescend
    ensures StepsLeft(t, x) < StepsLeft(s, w)
  {
  }

  lemma SplittingEnds(s: Shared, w: Writer, t: Shared, x: Writer)
    requires WriterNext(s, w, t, x) && Part(w.pc) == 1
    ensures StepsLeft(t, x) < StepsLeft(s, w)
  {
  }

  lemma FreeingEnds(s: Shared, w: Writer, t: Shared, x: Writer)
    requires WriterNext(s, w, t, x) && Part(w.pc) == 2
    ensures StepsLeft(t, x) < StepsLeft(s, w)
  {
  }

  lemma UnlinkingEnds(s: Shared, w: Writer, t: Shared, x: Writer)
    requires WriterNext(s, w, t, x) && Part(w.pc) == 3 && w.pc != RemDescend
    ensures StepsLeft(t, x) < StepsLeft(s, w)
  {
  }

  lemma StepEnds(s: Shared, w: Writer, t: Shared, x: Writer)
    requires TreeOk(s) && LocalOk(s, w) && WriterNext(s, w, t, x) && w.pc != Idle
    ensures StepsLeft(t, x) < StepsLeft(s, w)
  {
    if w.pc == InsDescend {
      DescendEnds(s, w, t, x);
    } else if w.pc == RemDescend {
      RemDescendEnds(s, w, t, x);
    } else if Part(w.pc) == 0 {
      InsertEnds(s, w, t, x);
    } else if Part(w.pc) == 1 {
      SplittingEnds(s, w, t, x);
    } else if Part(w.pc) == 2 {
      FreeingEnds(s, w, t, x);
    } else {
      UnlinkingEnds(s, w, t, x);
    }
  }

  /** Every insert and every remove is over after at most sixty steps of the lock holder. */
  lemma OperationsEnd(run: seq<Sys>, m: nat)
    requires IsRun(run) && m + 1 < |run| && run[m].w.pc != Idle && WriterStep(run[m], run[m + 1])
    ensures StepsLeft(run[m + 1].s, run[m + 1].w) < StepsLeft(run[m].s, run[m].w) <= 60
  {
    RunOk(run, m);
    StepEnds(run[m].s, run[m].w, run[m + 1].s, run[m + 1].w);
  }
}
