/** The lock holder: each of its steps keeps the invariant and disturbs no reader. */
module CritnibWriters {
  import opened CritnibHeap
  import opened CritnibMachine
  import opened CritnibInvariant
  import opened CritnibReaders

  // ---------- frames ----------

  /** `g` differs from `h` only in memory that is neither linked nor waiting. */
  ghost predicate OnlyPrivate(s: Shared, g: Heap) {
    && g.root == s.h.root && g.ln == s.h.ln && g.ll == s.h.ll
    && s.h.nodes.Keys <= g.nodes.Keys && s.h.leaves.Keys <= g.leaves.Keys
    && (forall a | a in s.h.nodes && (a in s.h.ln || a in s.retN) :: g.nodes[a] == s.h.nodes[a])
    && (forall a | a in s.h.leaves && (a in s.h.ll || a in s.retL) :: g.leaves[a] == s.h.leaves[a])
  }

  lemma PrivateEvolves(s: Shared, t: Shared)
    requires OnlyPrivate(s, t.h) && t.hist == s.hist && t.count == s.count && t.retN == s.retN && t.retL == s.retL
    requires Allocated(s.h)
    ensures Evolves(s, t)
  {
    forall p | Live(s.h, p) && OkPtr(s.h, p) ensures SameObject(s, t, p) && Live(t.h, p) {}
    forall p | Retired(s, p) && OkPtr(s.h, p) ensures Retired(t, p) && RetOf(t, p) == RetOf(s, p) &&
      SameObject(s, t, p) {}
  }

  /** A waiting node stays well described while its own memory is left alone. */
  lemma RetiredNodeStable(s: Shared, t: Shared, a: nat)
    requires Evolves(s, t) && a in s.retN && a in t.retN && t.retN[a] == s.retN[a] && RetiredNodeOk(s, a)
    requires a in t.h.nodes && t.h.nodes[a] == s.h.nodes[a] && a !in t.h.ln
    requires s.count <= s.retN[a].r + DELETED_LIFE + 1
    requires forall p | Live(s.h, p) && !Live(t.h, p) && Retired(t, p) :: RetOf(t, p).r > s.retN[a].r
    ensures RetiredNodeOk(t, a)
  {
    var n, z := s.h.nodes[a], s.retN[a];
    forall i: Nib | n.child[i] != Null ensures LaterThan(t, n.child[i], z) && SameObject(s, t, n.child[i]) {
      var p := n.child[i];
      assert LaterThan(s, p, z) && OkPtr(s.h, p);
      if Live(s.h, p) {
        assert SameObject(s, t, p);
      } else {
        assert Retired(s, p) && RetOf(s, p).r + DELETED_LIFE + 1 > s.count;
      }
    }
    forall key: Key | n.path <= key && (n.child[key[n.depth]] == Null || !(LocOf(t.h, n.child[key[n.depth]]) <= key))
      ensures WasAbsent(t.hist, z.at, key)
    {
      assert WasAbsent(s.hist, z.at, key);
      AbsentGrows(s.hist, t.hist, z.at, key);
    }
  }

  lemma RetiredLeafStable(s: Shared, t: Shared, a: nat)
    requires s.hist <= t.hist && s.count <= t.count
    requires a in s.retL && a in t.retL && t.retL[a] == s.retL[a] && RetiredLeafOk(s, a)
    requires a in t.h.leaves && t.h.leaves[a] == s.h.leaves[a] && a !in t.h.ll
    ensures RetiredLeafOk(t, a)
  {
  }

  lemma PrivateKeeps(s: Shared, w: Writer, t: Shared)
    requires TreeOk(s) && RetiredOk(s) && WindowOk(s)
    requires OnlyPrivate(s, t.h) && t.hist == s.hist && t.count == s.count && t.retN == s.retN && t.retL == s.retL
    ensures TreeOk(t) && RetiredOk(t) && Evolves(s, t)
  {
    PrivateEvolves(s, t);
    ShapeFrame(s.h, t.h, Last(s.hist));
    forall a | a in t.retN ensures RetiredNodeOk(t, a) {
      RetiredNodeStable(s, t, a);
    }
  }

  lemma PoolsFrame(s: Shared, t: Shared)
    requires PoolsOk(s)
    requires t.poolN == s.poolN && t.poolL == s.poolL && t.freeN == s.freeN && t.freeL == s.freeL
    requires forall a | a in s.freeN && a in s.h.nodes ::
      a !in t.h.ln && a !in t.retN && a in t.h.nodes && t.h.nodes[a] == s.h.nodes[a]
    requires forall a | a in s.freeL && a in s.h.leaves ::
      a !in t.h.ll && a !in t.retL && a in t.h.leaves && t.h.leaves[a] == s.h.leaves[a]
    ensures PoolsOk(t)
  {
  }

  lemma WildFrame(s: Shared, t: Shared)
    requires NoWildLinks(s) && s.h.nodes.Keys <= t.h.nodes.Keys && s.h.leaves.Keys <= t.h.leaves.Keys
    requires OkPtr(t.h, t.h.root) && OkPtr(t.h, t.poolN) && 0 !in t.h.leaves
    requires forall a, i: Nib | a in t.h.nodes ::
        (a in s.h.nodes && t.h.nodes[a].child[i] == s.h.nodes[a].child[i]) || OkPtr(t.h, t.h.nodes[a].child[i])
    ensures NoWildLinks(t)
  {
    forall a, i: Nib | a in t.h.nodes ensures OkPtr(t.h, t.h.nodes[a].child[i]) {
      if a in s.h.nodes { assert OkPtr(s.h, s.h.nodes[a].child[i]); }
    }
  }

  lemma CompressedFrame(s: Shared, w: Writer, t: Shared, x: Writer)
    requires CompressedBut(s, w) && w.pc != RemCount && w.pc != RemSkip && Allocated(s.h) && OnlyPrivate(s, t.h)
    ensures CompressedBut(t, x)
  {
  }

  ghost predicate StepOk(s: Shared, t: Shared, x: Writer) {
    MemoryOk(t, x) && Evolves(s, t)
  }

  ghost predicate CoreStepOk(s: Shared, t: Shared) {
    CoreOk(t) && Evolves(s, t) && OnlyPrivate(s, t.h)
  }

  /** A store into a leaf that the lock holder has in hand. */
  lemma HandLeafStore(s: Shared, w: Writer, t: Shared, l: Leaf)
    requires CoreOk(s) && WindowOk(s) && w.k in s.handL && t == s.(h := SetLeaf(s.h, w.k, l))
    ensures CoreStepOk(s, t)
  {
    PrivateKeeps(s, w, t);
    WildFrame(s, t);
    PoolsFrame(s, t);
  }

  /** A store into a node that the lock holder has in hand. */
  lemma HandNodeStore(s: Shared, w: Writer, t: Shared, n: Node)
    requires CoreOk(s) && WindowOk(s) && w.b in s.handN && t == s.(h := SetNode(s.h, w.b, n))
    requires forall i: Nib :: OkPtr(s.h, n.child[i])
    ensures CoreStepOk(s, t)
  {
    PrivateKeeps(s, w, t);
    WildFrame(s, t);
    PoolsFrame(s, t);
  }

  lemma StayEvolves(s: Shared)
    requires TreeOk(s)
    ensures Evolves(s, s)
  {
    PrivateEvolves(s, s);
  }

  // ---------- insert ----------

  lemma NodePoolStays(s: Shared, t: Shared)
    requires NodePoolOk(s) && t.poolN == s.poolN && t.freeN == s.freeN && t.retN == s.retN
    requires t.h.nodes == s.h.nodes && t.h.ln == s.h.ln
    ensures NodePoolOk(t)
  {
  }

  lemma LeafPoolStays(s: Shared, t: Shared)
    requires LeafPoolOk(s) && t.poolL == s.poolL && t.freeL == s.freeL && t.retL == s.retL
    requires t.h.leaves == s.h.leaves && t.h.ll == s.h.ll
    ensures LeafPoolOk(t)
  {
  }

  /** The first object of a pool taken out. */
  lemma PopNodePool(s: Shared, t: Shared)
    requires NodePoolOk(s) && s.freeN != [] && s.poolN.N? && s.poolN.a in s.h.nodes
    requires t.poolN == s.h.nodes[s.poolN.a].child[0] && t.freeN == s.freeN[1..] && t.retN == s.retN && t.h == s.h
    ensures NodePoolOk(t)
  {
    assert forall i | 0 <= i < |t.freeN| :: t.freeN[i] == s.freeN[i + 1];
  }

  lemma PopLeafPool(s: Shared, t: Shared)
    requires LeafPoolOk(s) && s.freeL != [] && s.poolL in s.h.leaves
    requires t.poolL == s.h.leaves[s.poolL].value && t.freeL == s.freeL[1..] && t.retL == s.retL && t.h == s.h
    ensures LeafPoolOk(t)
  {
    assert forall i | 0 <= i < |t.freeL| :: t.freeL[i] == s.freeL[i + 1];
  }

  lemma AllocLeafPools(s: Shared, w: Writer, t: Shared, x: Writer)
    requires PoolsOk(s) && HandsOk(s) && RetiredOk(s) && Allocated(s.h) && 0 !in s.h.leaves && DoAllocLeaf(s, w, t, x)
    ensures PoolsOk(t)
  {
    if x.pc == InsSetKey {
      if s.poolL == 0 {
        assert x.k !in s.freeL && x.k !in s.retL;
        PoolsFrame(s, t);
      } else {
        PopLeafPool(s, t);
        NodePoolStays(s, t);
      }
    }
  }

  lemma AllocLeafHands(s: Shared, w: Writer, t: Shared, x: Writer)
    requires PoolsOk(s) && HandsOk(s) && RetiredOk(s) && Allocated(s.h) && 0 !in s.h.leaves && DoAllocLeaf(s, w, t, x)
    ensures HandsOk(t) && OnlyPrivate(s, t.h) && 0 !in t.h.leaves
  {
    if x.pc == InsSetKey && s.poolL != 0 {
      assert x.k == s.freeL[0] && forall i | 0 <= i < |t.freeL| :: t.freeL[i] == s.freeL[i + 1];
    }
  }

  lemma AllocLeafCore(s: Shared, w: Writer, t: Shared, x: Writer)
    requires CoreOk(s) && WindowOk(s) && DoAllocLeaf(s, w, t, x)
    ensures CoreStepOk(s, t)
  {
    AllocLeafPools(s, w, t, x);
    AllocLeafHands(s, w, t, x);
    PrivateKeeps(s, w, t);
    WildFrame(s, t);
  }

  lemma DescendLocal(s: Shared, w: Writer, x: Writer)
    requires TreeOk(s) && LocalOk(s, w) && w.pc == InsDescend && DoDescend(s, w, s, x)
    ensures LocalOk(s, x)
  {
    if w.n != Null {
      assert LiveSlot(s.h, w.slot) && Live(s.h, w.n);
      if w.n.N? && s.h.nodes[w.n.a].path <= w.key { NodeShorter(s.h, w.n.a, w.key); }
    }
  }

  lemma LoadRootLocal(s: Shared, w: Writer, x: Writer)
    requires LocalOk(s, w) && w.pc == InsLoadRoot && DoLoadRoot(s, w, s, x)
    ensures LocalOk(s, x)
  {
    assert LiveSlot(s.h, RootSlot);
  }

  lemma PushLeafPool(s: Shared, t: Shared, k: nat)
    requires PoolsOk(s) && t == s.(poolL := k, freeL := [k] + s.freeL, handL := {})
    requires k in s.h.leaves && k !in s.h.ll && k !in s.retL && k !in s.freeL && s.h.leaves[k].value == s.poolL
    ensures PoolsOk(t)
  {
    NodePoolStays(s, t);
    PushLeaf(s, t, k);
  }

  lemma PushLeaf(s: Shared, t: Shared, k: nat)
    requires LeafPoolOk(s) && t.poolL == k && t.freeL == [k] + s.freeL && t.retL == s.retL && t.h == s.h
    requires k in s.h.leaves && k !in s.h.ll && k !in s.retL && k !in s.freeL && s.h.leaves[k].value == s.poolL
    ensures LeafPoolOk(t)
  {
    assert forall i | 0 < i < |t.freeL| :: t.freeL[i] == s.freeL[i - 1];
  }

  /** Putting the leaf in hand onto the reuse pool. */
  lemma PushLeafCore(s: Shared, w: Writer, t: Shared)
    requires CoreOk(s) && WindowOk(s) && t == s.(poolL := w.k, freeL := [w.k] + s.freeL, handL := {})
    requires w.k in s.handL && w.k in s.h.leaves && s.h.leaves[w.k].value == s.poolL
    ensures CoreStepOk(s, t)
  {
    PushLeafPool(s, t, w.k);
    PrivateKeeps(s, w, t);
    WildFrame(s, t);
  }

  /** EEXIST and an update are answered only for a key that is present. */
  lemma FreeLeafLocal(s: Shared, w: Writer, t: Shared, x: Writer)
    requires TreeOk(s) && LocalOk(s, w) && w.pc == InsFreeLeaf2 && DoFreeLeaf2(s, w, t, x)
    ensures LocalOk(t, x)
  {
  }

  lemma AllocNodePools(s: Shared, w: Writer, t: Shared, x: Writer)
    requires PoolsOk(s) && HandsOk(s) && RetiredOk(s) && Allocated(s.h) && DoAllocNode(s, w, t, x)
    ensures PoolsOk(t)
  {
    if x.pc == InsClear {
      if s.poolN == Null {
        assert x.b !in s.freeN && x.b !in s.retN;
        PoolsFrame(s, t);
      } else {
        PopNodePool(s, t);
        LeafPoolStays(s, t);
      }
    }
  }

  lemma AllocNodeHands(s: Shared, w: Writer, t: Shared, x: Writer)
    requires PoolsOk(s) && HandsOk(s) && RetiredOk(s) && Allocated(s.h) && NoWildLinks(s) && DoAllocNode(s, w, t, x)
    ensures HandsOk(t) && OnlyPrivate(s, t.h) && NoWildLinks(t)
  {
    if x.pc == InsClear && s.poolN.N? {
      assert x.b == s.freeN[0] && forall i | 0 <= i < |t.freeN| :: t.freeN[i] == s.freeN[i + 1];
    }
    WildFrame(s, t);
  }

  lemma AllocNodeCore(s: Shared, w: Writer, t: Shared, x: Writer)
    requires CoreOk(s) && WindowOk(s) && DoAllocNode(s, w, t, x)
    ensures CoreStepOk(s, t)
  {
    AllocNodePools(s, w, t, x);
    AllocNodeHands(s, w, t, x);
    PrivateKeeps(s, w, t);
  }

  /** A store into the node in hand does not move the place of the insert. */
  lemma SplitStays(s: Shared, w: Writer, g: Heap, x: Writer)
    requires TreeOk(s) && HandsOk(s) && AtSplit(s, w) && OnlyPrivate(s, g) && g.leaves == s.h.leaves
    requires x.key == w.key && x.v == w.v && x.slot == w.slot && x.n == w.n && x.k == w.k
    ensures AtSplit(s.(h := g), x) && SplitAt(g, w.key, w.n) == SplitAt(s.h, w.key, w.n) &&
      LocOf(g, w.n) == LocOf(s.h, w.n)
  {
  }

  lemma ClearLocal(s: Shared, w: Writer, t: Shared, x: Writer)
    requires TreeOk(s) && HandsOk(s) && LocalOk(s, w) && w.pc == InsClear && DoClear(s, w, t, x)
    ensures LocalOk(t, x)
  {
    SplitStays(s, w, t.h, x);
  }

  lemma Kid1Local(s: Shared, w: Writer, t: Shared, x: Writer)
    requires TreeOk(s) && HandsOk(s) && LocalOk(s, w) && w.pc == InsKid1 && DoKid1(s, w, t, x)
    ensures LocalOk(t, x)
  {
    SplitStays(s, w, t.h, x);
  }

  lemma Kid2Local(s: Shared, w: Writer, t: Shared, x: Writer)
    requires TreeOk(s) && HandsOk(s) && LocalOk(s, w) && w.pc == InsKid2 && DoKid2(s, w, t, x)
    ensures LocalOk(t, x)
  {
    SplitStays(s, w, t.h, x);
  }

  lemma DepthLocal(s: Shared, w: Writer, t: Shared, x: Writer)
    requires TreeOk(s) && HandsOk(s) && LocalOk(s, w) && w.pc == InsDepth && DoDepth(s, w, t, x)
    ensures LocalOk(t, x)
  {
    SplitStays(s, w, t.h, x);
  }

  lemma PathLocal(s: Shared, w: Writer, t: Shared, x: Writer)
    requires TreeOk(s) && HandsOk(s) && LocalOk(s, w) && w.pc == InsPath && DoPath(s, w, t, x)
    ensures LocalOk(t, x)
  {
    SplitStays(s, w, t.h, x);
  }

  // ---------- stores that change the tree ----------

  /** Waiting objects are not affected by a store into the tree. */
  lemma RetiredStay(s: Shared, w: Writer, t: Shared)
    requires RetiredOk(s) && WindowOk(s) && Evolves(s, t)
    requires forall a | a in s.retN ::
      a in t.retN && t.retN[a] == s.retN[a] && a in t.h.nodes && t.h.nodes[a] == s.h.nodes[a] && a !in t.h.ln
    requires forall a | a in s.retL ::
      a in t.retL && t.retL[a] == s.retL[a] && a in t.h.leaves && t.h.leaves[a] == s.h.leaves[a] && a !in t.h.ll
    requires forall a, p | a in s.retN && Live(s.h, p) && !Live(t.h, p) && Retired(t, p) :: RetOf(t, p).r > s.retN[a].r
    ensures forall a | a in s.retN :: RetiredNodeOk(t, a)
    ensures forall a | a in s.retL :: RetiredLeafOk(t, a)
  {
    forall a | a in s.retN ensures RetiredNodeOk(t, a) {
      RetiredNodeStable(s, t, a);
    }
  }

  lemma PutLeafTree(s: Shared, w: Writer, t: Shared, x: Writer)
    requires TreeOk(s) && HandsOk(s) && LocalOk(s, w) && w.pc == InsPutLeaf && DoPutLeaf(s, w, t, x)
    ensures LeafAdded(s.h, t.h, w.slot, w.k) && TreeOk(t) && w.key !in w.base
  {
    AddLeaf(s.h, t.h, w.slot, w.k);
    LeafAddedMap(s.h, t.h, w.slot, w.k, Last(s.hist));
  }

  lemma PutLeafEvolves(s: Shared, w: Writer, t: Shared, x: Writer)
    requires LeafAdded(s.h, t.h, w.slot, w.k) && DoPutLeaf(s, w, t, x) && Allocated(s.h)
    ensures Evolves(s, t)
  {
    forall p | Live(s.h, p) && OkPtr(s.h, p) ensures SameObject(s, t, p) && Live(t.h, p) {}
    forall p | Retired(s, p) && OkPtr(s.h, p) ensures Retired(t, p) && RetOf(t, p) == RetOf(s, p) &&
      SameObject(s, t, p) {}
  }

  lemma PutLeafRetired(s: Shared, w: Writer, t: Shared, x: Writer)
    requires RetiredOk(s) && HandsOk(s) && WindowOk(s) && LeafAdded(s.h, t.h, w.slot, w.k) && w.k in s.handL &&
      DoPutLeaf(s, w, t, x) && Evolves(s, t)
    ensures RetiredOk(t)
  {
    RetiredStay(s, w, t);
  }

  lemma PutLeafPools(s: Shared, w: Writer, t: Shared, x: Writer)
    requires PoolsOk(s) && HandsOk(s) && RetiredOk(s) && LeafAdded(s.h, t.h, w.slot, w.k) && w.k in s.handL &&
      DoPutLeaf(s, w, t, x)
    ensures PoolsOk(t) && HandsOk(t)
  {
    PoolsFrame(s, t);
  }

  lemma PutLeafWild(s: Shared, w: Writer, t: Shared, x: Writer)
    requires NoWildLinks(s) && LeafAdded(s.h, t.h, w.slot, w.k) && w.k in s.handL && DoPutLeaf(s, w, t, x)
    ensures NoWildLinks(t)
  {
    WildFrame(s, t);
  }

  lemma PublishTree(s: Shared, w: Writer, t: Shared, x: Writer)
    requires TreeOk(s) && HandsOk(s) && LocalOk(s, w) && w.pc == InsPublish && DoPublish(s, w, t, x)
    ensures NodeAdded(s.h, t.h, w.slot, w.b, w.k) && TreeOk(t) && w.key !in w.base
  {
    var d := SplitAt(s.h, w.key, w.n);
    assert |Pre(s.h, w.slot)| <= d by {
      var pre := Pre(s.h, w.slot);
      assert pre <= Loc(s.h, w.n) && forall i | 0 <= i < |pre| :: w.key[i] == pre[i] && Loc(s.h, w.n)[i] == pre[i];
    }
    AddNode(s.h, t.h, w.slot, w.b, w.k);
    NodeAddedMap(s.h, t.h, w.slot, w.b, w.k, Last(s.hist));
  }

  lemma PublishEvolves(s: Shared, w: Writer, t: Shared, x: Writer)
    requires NodeAdded(s.h, t.h, w.slot, w.b, w.k) && DoPublish(s, w, t, x) && Allocated(s.h)
    ensures Evolves(s, t)
  {
    forall p | Live(s.h, p) && OkPtr(s.h, p) ensures SameObject(s, t, p) && Live(t.h, p) {}
    forall p | Retired(s, p) && OkPtr(s.h, p) ensures Retired(t, p) && RetOf(t, p) == RetOf(s, p) &&
      SameObject(s, t, p) {}
  }

  lemma PublishRetired(s: Shared, w: Writer, t: Shared, x: Writer)
    requires RetiredOk(s) && HandsOk(s) && WindowOk(s) && NodeAdded(s.h, t.h, w.slot, w.b, w.k) && w.k in s.handL &&
      w.b in s.handN && DoPublish(s, w, t, x) && Evolves(s, t)
    ensures RetiredOk(t)
  {
    RetiredStay(s, w, t);
  }

  lemma PublishPools(s: Shared, w: Writer, t: Shared, x: Writer)
    requires PoolsOk(s) && HandsOk(s) && RetiredOk(s) && NodeAdded(s.h, t.h, w.slot, w.b, w.k) && w.k in s.handL &&
      w.b in s.handN && DoPublish(s, w, t, x)
    ensures PoolsOk(t) && HandsOk(t)
  {
    PoolsFrame(s, t);
  }

  lemma PublishWild(s: Shared, w: Writer, t: Shared, x: Writer)
    requires NoWildLinks(s) && NodeAdded(s.h, t.h, w.slot, w.b, w.k) && w.k in s.handL && w.b in s.handN &&
      DoPublish(s, w, t, x)
    ensures NoWildLinks(t)
  {
    WildFrame(s, t);
  }

  lemma UpdateTree(s: Shared, w: Writer, t: Shared, x: Writer)
    requires TreeOk(s) && LocalOk(s, w) && w.pc == InsUpdate && DoUpdate(s, w, t, x)
    ensures TreeOk(t) && (Compressed(s.h) ==> Compressed(t.h))
  {
    UpdateShape(s.h, t.h, w.b, w.v);
    UpdateValue(s.h, t.h, w.b, w.v, Last(s.hist));
  }

  lemma UpdateEvolves(s: Shared, w: Writer, t: Shared, x: Writer)
    requires DoUpdate(s, w, t, x) && Allocated(s.h)
    ensures Evolves(s, t)
  {
    forall p | Live(s.h, p) && OkPtr(s.h, p) ensures SameObject(s, t, p) && Live(t.h, p) {}
    forall p | Retired(s, p) && OkPtr(s.h, p) ensures Retired(t, p) && RetOf(t, p) == RetOf(s, p) &&
      SameObject(s, t, p) {}
  }

  lemma UpdateRest(s: Shared, w: Writer, t: Shared, x: Writer)
    requires CoreOk(s) && WindowOk(s) && DoUpdate(s, w, t, x) && w.b in s.h.ll && Evolves(s, t)
    ensures RetiredOk(t) && PoolsOk(t) && HandsOk(t) && NoWildLinks(t)
  {
    RetiredStay(s, w, t);
    PoolsFrame(s, t);
    WildFrame(s, t);
  }

  /** A tree without exempt nodes is compressed. */
  lemma CompressedNow(s: Shared, w: Writer)
    requires w.pc != RemCount && w.pc != RemSkip
    ensures CompressedBut(s, w) <==> Compressed(s.h)
  {
  }
}
