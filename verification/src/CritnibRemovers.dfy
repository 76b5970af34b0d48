/** The steps of `critnib_remove`: freeing what waited longest, and the stores that unlink. */
module CritnibRemovers {
  import opened CritnibHeap
  import opened CritnibMachine
  import opened CritnibInvariant
  import opened CritnibWriters

  lemma RemStartLocal(s: Shared, w: Writer, x: Writer)
    requires TreeOk(s) && LocalOk(s, w) && w.pc == RemStart && DoRemStart(s, w, s, x)
    ensures LocalOk(s, x)
  {
    if s.h.root == Null {
      assert LiveSlot(s.h, RootSlot);
      AbsentAt(s.h, Last(s.hist), RootSlot, w.key);
    }
  }

  lemma BumpEvolves(s: Shared, w: Writer, t: Shared, x: Writer)
    requires TreeOk(s) && DoBump(s, w, t, x)
    ensures Evolves(s, t)
  {
    forall p | Live(s.h, p) && OkPtr(s.h, p) ensures SameObject(s, t, p) && Live(t.h, p) {}
    forall p | Retired(s, p) && OkPtr(s.h, p) ensures Retired(t, p) && RetOf(t, p) == RetOf(s, p) &&
      SameObject(s, t, p) {}
  }

  lemma BumpRetired(s: Shared, w: Writer, t: Shared, x: Writer)
    requires RetiredOk(s) && WindowOk(s) && DoBump(s, w, t, x) && Evolves(s, t)
    ensures RetiredOk(t)
  {
    RetiredStay(s, w, t);
  }

  // ---------- freeing what waited longest ----------

  /** Node `a` stops waiting and is relinked for the pool. */
  ghost predicate NodeFreed(s: Shared, t: Shared, a: nat) {
    && a in s.retN && a in s.h.nodes
    && t == s.(h := SetKid(s.h, a, 0, s.poolN), retN := s.retN - {a}, handN := {a})
  }

  lemma NodeFreedEvolves(s: Shared, t: Shared, a: nat)
    requires TreeOk(s) && RetiredOk(s) && NodeFreed(s, t, a) && s.retN[a].r + DELETED_LIFE + 1 <= s.count
    ensures Evolves(s, t)
  {
    assert a !in s.h.ln;
    forall p | Live(s.h, p) && OkPtr(s.h, p) ensures SameObject(s, t, p) && Live(t.h, p) {}
    forall p | Retired(s, p) && OkPtr(s.h, p)
      ensures (Retired(t, p) && RetOf(t, p) == RetOf(s, p) && SameObject(s, t, p)) ||
        RetOf(s, p).r + DELETED_LIFE + 1 <= s.count {}
  }

  lemma NodeFreedTree(s: Shared, w: Writer, t: Shared, a: nat)
    requires TreeOk(s) && RetiredOk(s) && NodeFreed(s, t, a)
    ensures TreeOk(t) && OnlyLive(s, t)
  {
    assert a !in s.h.ln;
    ShapeFrame(s.h, t.h, Last(s.hist));
  }

  /** The linked memory is the same. */
  ghost predicate OnlyLive(s: Shared, t: Shared) {
    && t.h.ln == s.h.ln
    && forall a | a in s.h.ln && a in s.h.nodes :: a in t.h.nodes && t.h.nodes[a] == s.h.nodes[a]
  }

  lemma OnlyLiveCompressed(s: Shared, w: Writer, t: Shared, x: Writer)
    requires CompressedBut(s, w) && w.pc != RemCount && w.pc != RemSkip && Allocated(s.h) && OnlyLive(s, t)
    ensures CompressedBut(t, x)
  {
  }

  lemma NodeFreedRetired(s: Shared, t: Shared, a: nat)
    requires RetiredOk(s) && WindowOk(s) && NodeFreed(s, t, a) && Evolves(s, t)
    ensures RetiredOk(t)
  {
    forall b | b in t.retN ensures RetiredNodeOk(t, b) {
      RetiredNodeStable(s, t, b);
    }
    forall b | b in t.retL ensures RetiredLeafOk(t, b) {
      RetiredLeafStable(s, t, b);
    }
  }

  lemma NodeFreedPools(s: Shared, t: Shared, a: nat)
    requires PoolsOk(s) && HandsOk(s) && RetiredOk(s) && NodeFreed(s, t, a)
    ensures PoolsOk(t) && HandsOk(t)
  {
    assert RetiredNodeOk(s, a);
    PoolsFrame(s, t);
  }

  lemma NodeFreedWild(s: Shared, t: Shared, a: nat)
    requires NoWildLinks(s) && NodeFreed(s, t, a)
    ensures NoWildLinks(t)
  {
    WildFrame(s, t);
  }

  /** The step that makes a node reusable disturbs no reader that may still be accepted. */
  lemma NodeFreedCore(s: Shared, w: Writer, t: Shared, a: nat)
    requires CoreOk(s) && WindowOk(s) && NodeFreed(s, t, a) && s.retN[a].r + DELETED_LIFE + 1 <= s.count
    ensures CoreOk(t) && Evolves(s, t) && OnlyLive(s, t) && WindowOk(t)
  {
    NodeFreedEvolves(s, t, a);
    NodeFreedTree(s, w, t, a);
    NodeFreedRetired(s, t, a);
    NodeFreedPools(s, t, a);
    NodeFreedWild(s, t, a);
  }

  /** Leaf `a` stops waiting and is relinked for the pool. */
  ghost predicate LeafFreed(s: Shared, t: Shared, a: nat) {
    && a in s.retL && a in s.h.leaves
    && t == s.(h := SetLeaf(s.h, a, s.h.leaves[a].(value := s.poolL)), retL := s.retL - {a}, handL := {a})
  }

  lemma LeafFreedEvolves(s: Shared, t: Shared, a: nat)
    requires TreeOk(s) && RetiredOk(s) && LeafFreed(s, t, a) && s.retL[a].r + DELETED_LIFE + 1 <= s.count
    ensures Evolves(s, t)
  {
    assert a !in s.h.ll;
    forall p | Live(s.h, p) && OkPtr(s.h, p) ensures SameObject(s, t, p) && Live(t.h, p) {}
    forall p | Retired(s, p) && OkPtr(s.h, p)
      ensures (Retired(t, p) && RetOf(t, p) == RetOf(s, p) && SameObject(s, t, p)) ||
        RetOf(s, p).r + DELETED_LIFE + 1 <= s.count {}
  }

  lemma LeafFreedTree(s: Shared, t: Shared, a: nat)
    requires TreeOk(s) && RetiredOk(s) && LeafFreed(s, t, a)
    ensures TreeOk(t) && OnlyLive(s, t)
  {
    assert a !in s.h.ll;
    ShapeFrame(s.h, t.h, Last(s.hist));
  }

  lemma LeafFreedRetired(s: Shared, t: Shared, a: nat)
    requires RetiredOk(s) && WindowOk(s) && LeafFreed(s, t, a) && Evolves(s, t)
    ensures RetiredOk(t)
  {
    forall b | b in t.retN ensures RetiredNodeOk(t, b) {
      RetiredNodeStable(s, t, b);
    }
    forall b | b in t.retL ensures RetiredLeafOk(t, b) {
      RetiredLeafStable(s, t, b);
    }
  }

  lemma LeafFreedPools(s: Shared, t: Shared, a: nat)
    requires PoolsOk(s) && HandsOk(s) && RetiredOk(s) && NoWildLinks(s) && LeafFreed(s, t, a)
    ensures PoolsOk(t) && HandsOk(t) && NoWildLinks(t)
  {
    assert RetiredLeafOk(s, a);
    PoolsFrame(s, t);
    WildFrame(s, t);
  }

  lemma LeafFreedCore(s: Shared, t: Shared, a: nat)
    requires CoreOk(s) && WindowOk(s) && LeafFreed(s, t, a) && s.retL[a].r + DELETED_LIFE + 1 <= s.count
    ensures CoreOk(t) && Evolves(s, t) && OnlyLive(s, t) && WindowOk(t)
  {
    LeafFreedEvolves(s, t, a);
    LeafFreedTree(s, t, a);
    LeafFreedRetired(s, t, a);
    LeafFreedPools(s, t, a);
  }

  lemma PushNodePool(s: Shared, t: Shared, b: nat)
    requires PoolsOk(s) && t == s.(poolN := N(b), freeN := [b] + s.freeN, handN := {})
    requires b in s.h.nodes && b !in s.h.ln && b !in s.retN && b !in s.freeN && s.h.nodes[b].child[0] == s.poolN
    ensures PoolsOk(t)
  {
    assert forall i | 0 < i < |t.freeN| :: t.freeN[i] == s.freeN[i - 1];
  }

  /** Putting the node in hand onto the reuse pool. */
  lemma PushNodeCore(s: Shared, w: Writer, t: Shared)
    requires CoreOk(s) && WindowOk(s) && t == s.(poolN := N(w.b), freeN := [w.b] + s.freeN, handN := {})
    requires w.b in s.handN && w.b in s.h.nodes && s.h.nodes[w.b].child[0] == s.poolN
    ensures CoreStepOk(s, t)
  {
    PushNodePool(s, t, w.b);
    PrivateKeeps(s, w, t);
    WildFrame(s, t);
  }

  /** Stores into the rings leave the memory alone. */
  lemma RingStoreCore(s: Shared, w: Writer, t: Shared, pn: Ring, pl: Ring)
    requires CoreOk(s) && WindowOk(s) && t == s.(pendN := pn, pendL := pl)
    ensures CoreStepOk(s, t)
  {
    PrivateKeeps(s, w, t);
    WildFrame(s, t);
    PoolsFrame(s, t);
  }

  // ---------- finding the leaf ----------

  lemma RemDescendLocal(s: Shared, w: Writer, x: Writer)
    requires TreeOk(s) && LocalOk(s, w) && w.pc == RemDescend && DoRemDescend(s, w, s, x)
    ensures LocalOk(s, x)
  {
    if Pre(s.h, w.slot) <= w.key && (w.n == Null || !(Loc(s.h, w.n) <= w.key)) {
      AbsentAt(s.h, Last(s.hist), w.slot, w.key);
    }
    if w.n.N? {
      assert Live(s.h, w.n) && Pre(s.h, w.slot) <= Loc(s.h, w.n);
      if s.h.nodes[w.n.a].path <= w.key { NodeShorter(s.h, w.n.a, w.key); }
    }
  }

  lemma ClearLLocal(s: Shared, w: Writer, t: Shared, x: Writer)
    requires TreeOk(s) && LocalOk(s, w) && w.pc == RemClearL && DoClearL(s, w, t, x)
    ensures LocalOk(t, x)
  {
    assert LiveSlot(t.h, RootSlot);
  }

  // ---------- unlinking ----------

  /** Everything waiting was unlinked by removes before number `r`. */
  ghost predicate AllBefore(s: Shared, r: nat) {
    (forall a | a in s.retN :: s.retN[a].r < r) && r < s.count
  }

  lemma UnlinkTree(s: Shared, w: Writer, t: Shared, x: Writer)
    requires TreeOk(s) && LocalOk(s, w) && w.pc == RemUnlink && DoUnlink(s, w, t, x)
    ensures LeafRemoved(s.h, t.h, w.slot, w.k) && TreeOk(t)
    ensures w.key in w.base && w.base[w.key] == s.h.leaves[w.k].value && s.h.leaves[w.k].key == w.key
  {
    RemoveLeaf(s.h, t.h, w.slot, w.k);
    LeafRemovedMap(s.h, t.h, w.slot, w.k, Last(s.hist));
  }

  lemma UnlinkEvolves(s: Shared, w: Writer, t: Shared, x: Writer)
    requires LeafRemoved(s.h, t.h, w.slot, w.k) && DoUnlink(s, w, t, x) && Allocated(s.h) && RetiredOk(s) &&
      w.r + 1 == s.count
    ensures Evolves(s, t)
  {
    forall p | Live(s.h, p) && OkPtr(s.h, p)
      ensures SameObject(s, t, p) &&
        (Live(t.h, p) || (Retired(t, p) && RetOf(t, p).r + 1 >= s.count && RetOf(t, p).at + 1 >= |s.hist|)) {}
    forall p | Retired(s, p) && OkPtr(s.h, p) ensures Retired(t, p) && RetOf(t, p) == RetOf(s, p) &&
      SameObject(s, t, p) {}
  }

  lemma UnlinkRetired(s: Shared, w: Writer, t: Shared, x: Writer)
    requires RetiredOk(s) && WindowOk(s) && LeafRemoved(s.h, t.h, w.slot, w.k) && DoUnlink(s, w, t, x) && Evolves(s, t)
    requires AllBefore(s, w.r)
    requires w.key in Last(s.hist) && Last(s.hist)[w.key] == s.h.leaves[w.k].value && s.h.leaves[w.k].key == w.key
    ensures RetiredOk(t)
  {
    assert w.k !in s.retL;
    assert forall p | Live(s.h, p) && !Live(t.h, p) :: p == L(w.k);
    RetiredStay(s, w, t);
    assert RetiredLeafOk(t, w.k);
  }

  lemma UnlinkPools(s: Shared, w: Writer, t: Shared, x: Writer)
    requires PoolsOk(s) && HandsOk(s) && NoWildLinks(s) && LeafRemoved(s.h, t.h, w.slot, w.k) && DoUnlink(s, w, t, x)
    ensures PoolsOk(t) && HandsOk(t) && NoWildLinks(t)
  {
    PoolsFrame(s, t);
    WildFrame(s, t);
  }

  lemma UnlinkCompressed(s: Shared, w: Writer, t: Shared, x: Writer)
    requires CompressedBut(s, w) && w.pc == RemUnlink && DoUnlink(s, w, t, x) && LeafRemoved(s.h, t.h, w.slot, w.k)
    ensures CompressedBut(t, x) && (w.slot.ChildSlot? ==> w.slot.a in t.h.nodes && OneKid(t.h.nodes[w.slot.a]))
  {
    forall a | a in t.h.ln && a in t.h.nodes && !(w.slot.ChildSlot? && a == w.slot.a) ensures TwoKids(t.h.nodes[a]) {
      LeafRemovedCompressed(s.h, t.h, w.slot, w.k, a);
    }
    if w.slot.ChildSlot? {
      var n := s.h.nodes[w.slot.a];
      var i: Nib, j: Nib :| i < j && n.child[i] != Null && n.child[j] != Null;
      assert t.h.nodes[w.slot.a].child[if i == w.slot.i then j else i] != Null;
    }
  }

  lemma UnlinkLocal(s: Shared, w: Writer, t: Shared, x: Writer)
    requires LocalOk(s, w) && w.pc == RemUnlink && DoUnlink(s, w, t, x) && LeafRemoved(s.h, t.h, w.slot, w.k)
    requires w.key in w.base && s.h.leaves[w.k] == Leaf(w.key, w.base[w.key])
    requires w.slot.ChildSlot? ==> w.slot.a in t.h.nodes && OneKid(t.h.nodes[w.slot.a])
    ensures LocalOk(t, x)
  {
  }

  // ---------- skipping a node with one child ----------

  /** Deleting a key from a compressed node leaves it with a child to be skipped to. */
  lemma SomeKidRemains(n: Node) returns (i: Nib)
    requires OneKid(n) && !TwoKids(n)
    ensures OnlyKid(n, i)
  {
    i :| n.child[i] != Null;
  }

  lemma CountLocal(s: Shared, w: Writer, x: Writer)
    requires LocalOk(s, w) && CompressedBut(s, w) && w.pc == RemCount && DoCount(s, w, s, x)
    ensures LocalOk(s, x) && CompressedBut(s, x)
  {
  }

  lemma SkipTree(s: Shared, w: Writer, t: Shared, x: Writer)
    requires TreeOk(s) && LocalOk(s, w) && w.pc == RemSkip && DoSkip(s, w, t, x)
    ensures NodeSkipped(s.h, t.h, w.up, w.b, w.i) && TreeOk(t)
  {
    SkipNode(s.h, t.h, w.up, w.b, w.i);
    NodeSkippedMap(s.h, t.h, w.up, w.b, w.i, Last(s.hist));
  }

  lemma SkipEvolves(s: Shared, w: Writer, t: Shared, x: Writer)
    requires w.i < 16 && NodeSkipped(s.h, t.h, w.up, w.b, w.i) && DoSkip(s, w, t, x) && Allocated(s.h) &&
      RetiredOk(s) && w.r + 1 == s.count
    ensures Evolves(s, t)
  {
    forall p | Live(s.h, p) && OkPtr(s.h, p)
      ensures SameObject(s, t, p) &&
        (Live(t.h, p) || (Retired(t, p) && RetOf(t, p).r + 1 >= s.count && RetOf(t, p).at + 1 >= |s.hist|)) {}
    forall p | Retired(s, p) && OkPtr(s.h, p) ensures Retired(t, p) && RetOf(t, p) == RetOf(s, p) &&
      SameObject(s, t, p) {}
  }

  /** When a node is skipped, every key it does not lead on to is absent. */
  lemma SkippedAbsent(h: Heap, m: Contents, b: nat, key: Key)
    requires Shape(h) && Represents(h, m) && b in h.ln && b in h.nodes && h.nodes[b].path <= key
    requires var p := h.nodes[b].child[key[h.nodes[b].depth]]; p == Null || !(Live(h, p) && Loc(h, p) <= key)
    ensures key !in m
  {
    NodeShorter(h, b, key);
    AbsentAt(h, m, ChildSlot(b, key[h.nodes[b].depth]), key);
  }

  /** Its children are part of the tree, and its children that are nodes lie below it. */
  lemma SkippedKid(h: Heap, b: nat, i: Nib)
    requires Shape(h) && b in h.ln && b in h.nodes && h.nodes[b].child[i] != Null
    ensures Live(h, h.nodes[b].child[i])
    ensures h.nodes[b].child[i].N? ==> h.nodes[b].depth < h.nodes[h.nodes[b].child[i].a].depth
  {
    var slot := ChildSlot(b, i);
    assert LiveSlot(h, slot) && Get(h, slot) == h.nodes[b].child[i];
  }

  lemma SkippedNodeOk(s: Shared, w: Writer, t: Shared, x: Writer)
    requires TreeOk(s) && LocalOk(s, w) && w.pc == RemSkip && DoSkip(s, w, t, x) &&
      NodeSkipped(s.h, t.h, w.up, w.b, w.i) && w.r < s.count
    requires TreeOk(t)
    ensures RetiredNodeOk(t, w.b)
  {
    NodeSkippedView(s.h, t.h, w.up, w.b, w.i);
    var n, z := s.h.nodes[w.b], t.retN[w.b];
    assert t.h.nodes[w.b] == n by {
      assert LiveSlot(t.h, w.up);
    }
    forall i: Nib | n.child[i] != Null
      ensures Live(s.h, n.child[i]) && (n.child[i].N? ==> n.depth < s.h.nodes[n.child[i].a].depth)
    {
      SkippedKid(s.h, w.b, i);
    }
    forall key: Key | n.path <= key && (n.child[key[n.depth]] == Null || !(LocOf(t.h, n.child[key[n.depth]]) <= key))
      ensures WasAbsent(t.hist, z.at, key)
    {
      SkippedAbsent(s.h, Last(s.hist), w.b, key);
      assert key !in t.hist[z.at];
    }
  }

  lemma SkipRetired(s: Shared, w: Writer, t: Shared, x: Writer)
    requires RetiredOk(s) && WindowOk(s) && w.i < 16 && NodeSkipped(s.h, t.h, w.up, w.b, w.i) && DoSkip(s, w, t, x) &&
      Evolves(s, t)
    requires AllBefore(s, w.r) && w.b in t.retN && RetiredNodeOk(t, w.b)
    ensures RetiredOk(t)
  {
    assert w.b !in s.retN;
    assert forall p | Live(s.h, p) && !Live(t.h, p) :: p == N(w.b);
    RetiredStay(s, w, t);
  }

  lemma SkipPools(s: Shared, w: Writer, t: Shared, x: Writer)
    requires PoolsOk(s) && HandsOk(s) && NoWildLinks(s) && w.i < 16 && NodeSkipped(s.h, t.h, w.up, w.b, w.i) &&
      DoSkip(s, w, t, x)
    ensures PoolsOk(t) && HandsOk(t) && NoWildLinks(t)
  {
    PoolsFrame(s, t);
    WildFrame(s, t);
  }

  lemma SkipCompressed(s: Shared, w: Writer, t: Shared, x: Writer)
    requires CompressedBut(s, w) && w.pc == RemSkip && DoSkip(s, w, t, x) && NodeSkipped(s.h, t.h, w.up, w.b, w.i)
    requires Live(s.h, s.h.nodes[w.b].child[w.i])
    ensures CompressedBut(t, x)
  {
    forall a | a in t.h.ln && a in t.h.nodes ensures TwoKids(t.h.nodes[a]) {
      NodeSkippedCompressed(s.h, t.h, w.up, w.b, w.i, a);
    }
  }
}
