/**
  A run in which a lookup never ends although its key is in the map from the call on. Two nodes, one above
  the other, are unlinked while a reader is at the upper one; sixteen removes later both are in the reuse
  pool, whose links lead from the lower one back to the upper one, and the reader goes round.
 */
module CritnibCycle {
  import opened CritnibHeap
  import opened CritnibMachine
  import opened CritnibInvariant

  ghost predicate EndsIn(run: seq<Sys>, y: Sys) {
    IsRun(run) && run[|run| - 1] == y
  }

  ghost predicate Reachable(y: Sys) {
    exists run :: EndsIn(run, y)
  }

  lemma StepReaches(y: Sys, z: Sys)
    requires Reachable(y) && Next(y, z)
    ensures Reachable(z)
  {
    var run :| EndsIn(run, y);
    var more := run + [z];
    forall i | 0 <= i < |more| - 1 ensures Next(more[i], more[i + 1]) {
      if i < |run| - 1 { assert Next(run[i], run[i + 1]); }
    }
    assert EndsIn(more, z);
  }

  lemma Go(y: Sys, t: Shared, x: Writer) returns (z: Sys)
    requires Reachable(y) && WriterNext(y.s, y.w, t, x)
    ensures Reachable(z) && z == Sys(t, x, y.readers)
  {
    z := Sys(t, x, y.readers);
    assert WriterStep(y, z);
    StepReaches(y, z);
  }

  // ---------- an insert ----------

  lemma SetLeafTwice(h: Heap, k: nat, a: Leaf, b: Leaf)
    ensures SetLeaf(SetLeaf(h, k, a), k, b) == SetLeaf(h, k, b)
  {
    assert h.leaves[k := a][k := b] == h.leaves[k := b];
  }

  lemma SetNodeTwice(h: Heap, k: nat, a: Node, b: Node)
    ensures SetNode(SetNode(h, k, a), k, b) == SetNode(h, k, b)
  {
    assert h.nodes[k := a][k := b] == h.nodes[k := b];
  }

  /** A new leaf with its key and value. */
  lemma LeafMade(y: Sys, key: Key, v: nat, k: nat) returns (z: Sys)
    requires Reachable(y) && y.w.pc == Idle && y.s.poolL == 0 && k > 0 && k !in y.s.h.leaves
    ensures Reachable(z) && z.readers == y.readers && z.w.pc == InsLoadRoot
    ensures z.w.key == key && z.w.v == v && z.w.k == k
    ensures z.s == y.s.(h := SetLeaf(y.s.h, k, Leaf(key, v)), handL := {k})
  {
    var s := y.s;
    z := Go(y, s, y.w.(pc := InsAllocLeaf, key := key, v := v, update := false, base := Last(s.hist)));
    z := Go(z, s.(h := SetLeaf(s.h, k, ZeroLeaf()), handL := {k}), z.w.(pc := InsSetKey, k := k));
    z := LeafFilled(z);
    SetLeafTwice(s.h, k, ZeroLeaf(), Leaf(key, v));
  }

  lemma LeafFilled(y: Sys) returns (z: Sys)
    requires Reachable(y) && y.w.pc == InsSetKey && y.w.k in y.s.h.leaves
    ensures Reachable(z) && z.readers == y.readers && z.w == y.w.(pc := InsLoadRoot)
    ensures z.s == y.s.(h := SetLeaf(y.s.h, y.w.k, Leaf(y.w.key, y.w.v)))
  {
    var s, k, l := y.s, y.w.k, y.s.h.leaves[y.w.k];
    z := Go(y, s.(h := SetLeaf(s.h, k, l.(key := y.w.key))), y.w.(pc := InsSetValue));
    z := Go(z, z.s.(h := SetLeaf(z.s.h, k, Leaf(y.w.key, y.w.v))), z.w.(pc := InsLoadRoot));
    SetLeafTwice(s.h, k, l.(key := y.w.key), Leaf(y.w.key, y.w.v));
  }

  /** The memory after an insert into an empty critnib. */
  ghost function WithLeaf(s: Shared, key: Key, v: nat, k: nat): Shared {
    s.(h := SetLeaf(s.h, k, Leaf(key, v)).(root := L(k), ll := s.h.ll + {k}), handL := {},
       hist := s.hist + [Last(s.hist)[key := v]])
  }

  lemma InsertFirst(y: Sys, key: Key, v: nat, k: nat) returns (z: Sys)
    requires Reachable(y) && y.w.pc == Idle && y.s.poolL == 0 && k > 0 && k !in y.s.h.leaves && y.s.h.root == Null
    ensures Reachable(z) && z.readers == y.readers && z.w.pc == Idle && z.s == WithLeaf(y.s, key, v, k)
  {
    z := LeafMade(y, key, v, k);
    z := Go(z, z.s, z.w.(pc := InsPutLeaf, slot := RootSlot, n := Null));
    z := Go(z, WithLeaf(y.s, key, v, k), z.w.(pc := InsDone, code := Ok));
    z := Go(z, z.s, z.w.(pc := Idle));
  }

  /** A zeroed node is cleared in sixteen steps that change nothing. */
  lemma {:induction false} Cleared(y: Sys) returns (z: Sys)
    requires Reachable(y) && y.w.pc == InsClear && y.w.i <= 16 && y.w.b in y.s.h.nodes
    requires y.s.h.nodes[y.w.b] == ZeroNode()
    ensures Reachable(z) && z.s == y.s && z.readers == y.readers && z.w == y.w.(pc := InsKid1, i := 16)
    decreases 16 - y.w.i
  {
    if y.w.i < 16 {
      var h, b := y.s.h, y.w.b;
      assert h.nodes[b].child[y.w.i := Null] == h.nodes[b].child;
      assert h.nodes[b := h.nodes[b]] == h.nodes;
      z := Go(y, y.s, y.w.(i := y.w.i + 1));
      z := Cleared(z);
    } else {
      z := Go(y, y.s, y.w.(pc := InsKid1));
    }
  }

  /** The node that leads to the new leaf and to what was there. */
  ghost function Fork(key: Key, d: Nib, k: nat, other: Nib, p: Ptr): Node {
    Node(ZeroNode().child[key[d] := L(k)][other := p], d, key[..d])
  }

  /** The stores into the new node. */
  lemma KidsMade(y: Sys, d: Nib) returns (z: Sys)
    requires Reachable(y) && y.w.pc == InsKid1 && y.w.b in y.s.h.nodes && y.s.h.nodes[y.w.b] == ZeroNode()
    requires Split(y.s.h, y.w.key, y.w.n) && d == SplitAt(y.s.h, y.w.key, y.w.n) && y.w.n != N(y.w.b)
    ensures Reachable(z) && z.readers == y.readers && z.w == y.w.(pc := InsDepth)
    ensures var kids := ZeroNode().child[y.w.key[d] := L(y.w.k)][LocOf(y.s.h, y.w.n)[d] := y.w.n];
      z.s == y.s.(h := SetNode(y.s.h, y.w.b, ZeroNode().(child := kids)))
  {
    var s, w, b := y.s, y.w, y.w.b;
    z := Go(y, s.(h := SetKid(s.h, b, w.key[d], L(w.k))), w.(pc := InsKid2));
    assert LocOf(z.s.h, w.n) == LocOf(s.h, w.n);
    z := Go(z, z.s.(h := SetKid(z.s.h, b, LocOf(s.h, w.n)[d], w.n)), w.(pc := InsDepth));
    SetNodeTwice(s.h, b, ZeroNode().(child := ZeroNode().child[w.key[d] := L(w.k)]), z.s.h.nodes[b]);
  }

  lemma NodeMade(y: Sys, d: Nib) returns (z: Sys)
    requires Reachable(y) && y.w.pc == InsDepth && y.w.b in y.s.h.nodes
    requires Split(y.s.h, y.w.key, y.w.n) && d == SplitAt(y.s.h, y.w.key, y.w.n) && y.w.n != N(y.w.b)
    ensures Reachable(z) && z.readers == y.readers && z.w == y.w.(pc := InsPublish)
    ensures z.s == y.s.(h := SetNode(y.s.h, y.w.b, Node(y.s.h.nodes[y.w.b].child, d, y.w.key[..d])))
  {
    var s, w, b := y.s, y.w, y.w.b;
    var n := s.h.nodes[b];
    z := Go(y, s.(h := SetNode(s.h, b, n.(depth := d))), w.(pc := InsPath));
    assert LocOf(z.s.h, w.n) == LocOf(s.h, w.n);
    z := Go(z, z.s.(h := SetNode(z.s.h, b, Node(n.child, d, w.key[..d]))), w.(pc := InsPublish));
    SetNodeTwice(s.h, b, n.(depth := d), Node(n.child, d, w.key[..d]));
  }

  /** A new node, cleared. */
  lemma NodeTaken(y: Sys, b: nat) returns (z: Sys)
    requires Reachable(y) && y.w.pc == InsAllocNode && y.s.poolN == Null && b !in y.s.h.nodes
    ensures Reachable(z) && z.readers == y.readers && z.w == y.w.(pc := InsKid1, b := b, i := 16)
    ensures z.s == y.s.(handN := {b}, h := SetNode(y.s.h, b, ZeroNode()))
  {
    z := Go(y, y.s.(h := SetNode(y.s.h, b, ZeroNode()), handN := {b}), y.w.(pc := InsClear, b := b, i := 0));
    z := Cleared(z);
  }

  /** A new node does not matter to the link that is split. */
  lemma SplitSame(h: Heap, key: Key, p: Ptr, b: nat, n: Node)
    requires Split(h, key, p) && p != N(b)
    ensures var g := SetNode(h, b, n);
      Split(g, key, p) && LocOf(g, p) == LocOf(h, p) && SplitAt(g, key, p) == SplitAt(h, key, p)
  {
  }

  /** From the split to a node with its two links. */
  lemma KidsFilled(y: Sys, d: Nib, b: nat, kids: Kids) returns (z: Sys)
    requires Reachable(y) && y.w.pc == InsAllocNode && y.s.poolN == Null && b !in y.s.h.nodes
    requires Split(y.s.h, y.w.key, y.w.n) && d == SplitAt(y.s.h, y.w.key, y.w.n)
    requires kids == ZeroNode().child[y.w.key[d] := L(y.w.k)][LocOf(y.s.h, y.w.n)[d] := y.w.n]
    ensures Reachable(z) && z.readers == y.readers && z.w == y.w.(pc := InsDepth, b := b, i := 16)
    ensures z.s == y.s.(handN := {b}, h := SetNode(y.s.h, b, ZeroNode().(child := kids)))
  {
    z := NodeTaken(y, b);
    SplitSame(y.s.h, y.w.key, y.w.n, b, ZeroNode());
    z := KidsMade(z, d);
    SetNodeTwice(y.s.h, b, ZeroNode(), ZeroNode().(child := kids));
  }

  /** From the split to the filled node. */
  lemma NodeFilled(y: Sys, d: Nib, b: nat) returns (z: Sys)
    requires Reachable(y) && y.w.pc == InsAllocNode && y.s.poolN == Null && b !in y.s.h.nodes
    requires Split(y.s.h, y.w.key, y.w.n) && d == SplitAt(y.s.h, y.w.key, y.w.n)
    ensures Reachable(z) && z.readers == y.readers && z.w == y.w.(pc := InsPublish, b := b, i := 16)
    ensures z.s == y.s.(handN := {b},
                        h := SetNode(y.s.h, b, Fork(y.w.key, d, y.w.k, LocOf(y.s.h, y.w.n)[d], y.w.n)))
  {
    var h, w := y.s.h, y.w;
    var kids: Kids := ZeroNode().child[w.key[d] := L(w.k)][LocOf(h, w.n)[d] := w.n];
    z := KidsFilled(y, d, b, kids);
    SplitSame(h, w.key, w.n, b, ZeroNode().(child := kids));
    z := NodeMade(z, d);
    SetNodeTwice(h, b, ZeroNode().(child := kids), Node(kids, d, w.key[..d]));
  }

  /** The memory after an insert that puts a node above the root. */
  ghost function WithFork(s: Shared, key: Key, v: nat, k: nat, b: nat, d: Nib, other: Nib): Shared {
    s.(h := SetNode(SetLeaf(s.h, k, Leaf(key, v)), b, Fork(key, d, k, other, s.h.root))
              .(root := N(b), ln := s.h.ln + {b}, ll := s.h.ll + {k}),
       handN := {}, handL := {}, hist := s.hist + [Last(s.hist)[key := v]])
  }

  /** The insert comes to the root, which its key must be split from. */
  lemma SplitFound(y: Sys) returns (z: Sys)
    requires Reachable(y) && y.w.pc == InsLoadRoot && Split(y.s.h, y.w.key, y.s.h.root)
    ensures Reachable(z) && z.readers == y.readers && z.s == y.s
    ensures z.w == y.w.(pc := InsAllocNode, slot := RootSlot, n := y.s.h.root)
  {
    z := Go(y, y.s, y.w.(pc := InsDescend, slot := RootSlot, n := y.s.h.root));
    z := Go(z, y.s, z.w.(pc := InsAllocNode));
  }

  lemma Published(y: Sys) returns (z: Sys)
    requires Reachable(y) && y.w.pc == InsPublish && y.w.slot == RootSlot
    ensures Reachable(z) && z.readers == y.readers && z.w.pc == Idle
    ensures z.s == y.s.(h := y.s.h.(root := N(y.w.b), ln := y.s.h.ln + {y.w.b}, ll := y.s.h.ll + {y.w.k}),
                        handN := {}, handL := {}, hist := y.s.hist + [Last(y.s.hist)[y.w.key := y.w.v]])
  {
    var s, w := y.s, y.w;
    z := Go(y, s.(h := s.h.(root := N(w.b), ln := s.h.ln + {w.b}, ll := s.h.ll + {w.k}),
                  handN := {}, handL := {}, hist := s.hist + [Last(s.hist)[w.key := w.v]]),
            w.(pc := InsDone, code := Ok));
    z := Go(z, z.s, z.w.(pc := Idle));
  }

  /** Nor does a new leaf. */
  lemma SplitToo(h: Heap, key: Key, p: Ptr, k: nat, l: Leaf)
    requires Split(h, key, p) && p != L(k)
    ensures var g := SetLeaf(h, k, l);
      Split(g, key, p) && LocOf(g, p) == LocOf(h, p) && SplitAt(g, key, p) == SplitAt(h, key, p)
  {
  }

  lemma InsertAbove(y: Sys, key: Key, v: nat, k: nat, b: nat, d: Nib) returns (z: Sys)
    requires Reachable(y) && y.w.pc == Idle && y.s.poolL == 0 && y.s.poolN == Null
    requires k > 0 && k !in y.s.h.leaves && b !in y.s.h.nodes
    requires Split(y.s.h, key, y.s.h.root) && d == SplitAt(y.s.h, key, y.s.h.root)
    ensures Reachable(z) && z.readers == y.readers && z.w.pc == Idle
    ensures z.s == WithFork(y.s, key, v, k, b, d, LocOf(y.s.h, y.s.h.root)[d])
  {
    z := LeafMade(y, key, v, k);
    SplitToo(y.s.h, key, y.s.h.root, k, Leaf(key, v));
    z := SplitFound(z);
    z := NodeFilled(z, d, b);
    z := Published(z);
  }

  // ---------- a remove ----------

  lemma RemoveBegins(y: Sys, key: Key) returns (z: Sys)
    requires Reachable(y) && y.w.pc == Idle && y.s.h.root != Null
    ensures Reachable(z) && z.readers == y.readers && z.w.pc == RemFreeN1 && z.w.key == key && z.w.r == y.s.count
    ensures z.s == y.s.(count := y.s.count + 1)
  {
    z := Go(y, y.s, y.w.(pc := RemStart, key := key, base := Last(y.s.hist)));
    z := Go(z, y.s, z.w.(pc := RemBump));
    z := Go(z, y.s.(count := y.s.count + 1), z.w.(pc := RemFreeN1, r := y.s.count));
  }

  /** Nothing is due. */
  lemma NothingDue(y: Sys) returns (z: Sys)
    requires Reachable(y) && y.w.pc == RemFreeN1 && y.s.pendN[Cell(y.w.r)] == Null && y.s.pendL[Cell(y.w.r)] == Null
    ensures Reachable(z) && z.readers == y.readers && z.s == y.s && z.w == y.w.(pc := RemClearN)
  {
    z := Go(y, y.s, y.w.(pc := RemFreeL1));
    z := Go(z, y.s, z.w.(pc := RemClearN));
  }

  /** The two cells are emptied. */
  lemma CellsCleared(y: Sys) returns (z: Sys)
    requires Reachable(y) && y.w.pc == RemClearN
    ensures Reachable(z) && z.readers == y.readers
    ensures z.s == y.s.(pendN := y.s.pendN[Cell(y.w.r) := Null], pendL := y.s.pendL[Cell(y.w.r) := Null])
    ensures z.w == y.w.(pc := RemDescend, up := RootSlot, slot := RootSlot, n := y.s.h.root)
  {
    var c := Cell(y.w.r);
    z := Go(y, y.s.(pendN := y.s.pendN[c := Null]), y.w.(pc := RemClearL));
    z := Go(z, z.s.(pendL := z.s.pendL[c := Null]),
            z.w.(pc := RemDescend, up := RootSlot, slot := RootSlot, n := y.s.h.root));
  }

  lemma NothingFreed(y: Sys) returns (z: Sys)
    requires Reachable(y) && y.w.pc == RemFreeN1 && y.s.pendN[Cell(y.w.r)] == Null && y.s.pendL[Cell(y.w.r)] == Null
    ensures Reachable(z) && z.readers == y.readers && z.s == y.s
    ensures z.w == y.w.(pc := RemDescend, up := RootSlot, slot := RootSlot, n := y.s.h.root)
  {
    var s, c := y.s, Cell(y.w.r);
    z := NothingDue(y);
    assert s.pendN[c := Null] == s.pendN && s.pendL[c := Null] == s.pendL;
    z := CellsCleared(z);
  }

  /** The only leaf has another key. */
  lemma Misses(y: Sys) returns (z: Sys)
    requires Reachable(y) && y.w.pc == RemDescend && y.w.n.L? && y.w.n.a in y.s.h.leaves
    requires y.s.h.leaves[y.w.n.a].key != y.w.key
    ensures Reachable(z) && z.readers == y.readers && z.s == y.s && z.w.pc == Idle
  {
    z := Go(y, y.s, y.w.(pc := RemDone, res := 0));
    z := Go(z, y.s, z.w.(pc := Idle));
  }

  /** Only a leaf is left, and it has another key. */
  ghost predicate OnlyLeaf(s: Shared, key: Key) {
    s.h.root.L? && s.h.root.a in s.h.leaves && s.h.leaves[s.h.root.a].key != key
  }

  /** A remove of an absent key with nothing due only counts. */
  lemma RemoveNothing(y: Sys, key: Key) returns (z: Sys)
    requires Reachable(y) && y.w.pc == Idle && OnlyLeaf(y.s, key)
    requires y.s.pendN[Cell(y.s.count)] == Null && y.s.pendL[Cell(y.s.count)] == Null
    ensures Reachable(z) && z.readers == y.readers && z.w.pc == Idle && z.s == y.s.(count := y.s.count + 1)
  {
    z := RemoveBegins(y, key);
    z := NothingFreed(z);
    z := Misses(z);
  }

  /** The memory after the node and the leaf that were due are in the pools. */
  ghost function Freed(s: Shared, c: nat, a: nat, k: nat): Shared
    requires c < DELETED_LIFE && a in s.h.nodes && k in s.h.leaves
  {
    s.(h := SetLeaf(SetKid(s.h, a, 0, s.poolN), k, s.h.leaves[k].(value := s.poolL)),
       poolN := N(a), freeN := [a] + s.freeN, poolL := k, freeL := [k] + s.freeL, handN := {}, handL := {},
       retN := s.retN - {a}, retL := s.retL - {k}, pendN := s.pendN[c := Null], pendL := s.pendL[c := Null])
  }

  lemma NodeFreed(y: Sys, a: nat) returns (z: Sys)
    requires Reachable(y) && y.w.pc == RemFreeN1 && y.s.pendN[Cell(y.w.r)] == N(a) && a in y.s.h.nodes
    ensures Reachable(z) && z.readers == y.readers && z.w == y.w.(pc := RemFreeL1, b := a)
    ensures z.s == y.s.(h := SetKid(y.s.h, a, 0, y.s.poolN), poolN := N(a), freeN := [a] + y.s.freeN, handN := {},
                        retN := y.s.retN - {a})
  {
    var s := y.s;
    z := Go(y, s.(h := SetKid(s.h, a, 0, s.poolN), retN := s.retN - {a}, handN := {a}), y.w.(pc := RemFreeN2, b := a));
    z := Go(z, z.s.(poolN := N(a), freeN := [a] + s.freeN, handN := {}), z.w.(pc := RemFreeL1));
  }

  lemma LeafFreed(y: Sys, k: nat) returns (z: Sys)
    requires Reachable(y) && y.w.pc == RemFreeL1 && y.s.pendL[Cell(y.w.r)] == L(k) && k in y.s.h.leaves
    ensures Reachable(z) && z.readers == y.readers && z.w == y.w.(pc := RemClearN, k := k)
    ensures z.s == y.s.(h := SetLeaf(y.s.h, k, y.s.h.leaves[k].(value := y.s.poolL)), poolL := k,
                        freeL := [k] + y.s.freeL, handL := {}, retL := y.s.retL - {k})
  {
    var s := y.s;
    z := Go(y, s.(h := SetLeaf(s.h, k, s.h.leaves[k].(value := s.poolL)), retL := s.retL - {k}, handL := {k}),
            y.w.(pc := RemFreeL2, k := k));
    z := Go(z, z.s.(poolL := k, freeL := [k] + s.freeL, handL := {}), z.w.(pc := RemClearN));
  }

  lemma BothFreed(y: Sys, a: nat, k: nat) returns (z: Sys)
    requires Reachable(y) && y.w.pc == RemFreeN1 && a in y.s.h.nodes && k in y.s.h.leaves
    requires y.s.pendN[Cell(y.w.r)] == N(a) && y.s.pendL[Cell(y.w.r)] == L(k)
    ensures Reachable(z) && z.readers == y.readers && z.w.pc == RemDescend && z.w.key == y.w.key
    ensures z.w.n == y.s.h.root && z.s == Freed(y.s, Cell(y.w.r), a, k)
  {
    z := NodeFreed(y, a);
    z := LeafFreed(z, k);
    z := CellsCleared(z);
  }

  /** A remove of an absent key that puts what was due into the pools. */
  lemma RemoveFrees(y: Sys, key: Key, a: nat, k: nat) returns (z: Sys)
    requires Reachable(y) && y.w.pc == Idle && OnlyLeaf(y.s, key) && y.s.h.root != L(k)
    requires a in y.s.h.nodes && k in y.s.h.leaves
    requires y.s.pendN[Cell(y.s.count)] == N(a) && y.s.pendL[Cell(y.s.count)] == L(k)
    ensures Reachable(z) && z.readers == y.readers && z.w.pc == Idle
    ensures z.s == Freed(y.s.(count := y.s.count + 1), Cell(y.s.count), a, k)
  {
    z := RemoveBegins(y, key);
    z := BothFreed(z, a, k);
    z := Misses(z);
  }

  /** The root is a node with two leaves or links, one of them the leaf to be removed. */
  ghost predicate AtFork(s: Shared, key: Key, b: nat, k: nat, i: Nib) {
    && s.h.root == N(b) && b in s.h.nodes && k in s.h.leaves && s.h.leaves[k].key == key
    && var n := s.h.nodes[b];
       && n.child[key[n.depth]] == L(k) && i != key[n.depth] && n.child[i] != Null
       && forall j: Nib | j != i && j != key[n.depth] :: n.child[j] == Null
  }

  lemma FindsLeaf(y: Sys, b: nat, k: nat, i: Nib) returns (z: Sys)
    requires Reachable(y) && y.w.pc == RemDescend && AtFork(y.s, y.w.key, b, k, i)
    requires y.w.slot == RootSlot && y.w.n == y.s.h.root
    ensures Reachable(z) && z.readers == y.readers && z.s == y.s && z.w.pc == RemUnlink && z.w.key == y.w.key
    ensures z.w.r == y.w.r && z.w.k == k && z.w.up == RootSlot
    ensures z.w.slot == ChildSlot(b, y.w.key[y.s.h.nodes[b].depth])
  {
    var s, next := y.s, ChildSlot(b, y.w.key[y.s.h.nodes[b].depth]);
    z := Go(y, s, y.w.(up := RootSlot, slot := next, n := L(k)));
    z := Go(z, s, z.w.(pc := RemUnlink, k := k));
  }

  /** The memory once the leaf is unlinked and its node skipped. */
  ghost function Skipped(s: Shared, key: Key, b: nat, k: nat, i: Nib, r: nat): Shared
    requires AtFork(s, key, b, k, i) && s.hist != []
  {
    var h := SetKid(s.h, b, key[s.h.nodes[b].depth], Null);
    s.(h := h.(root := s.h.nodes[b].child[i], ln := s.h.ln - {b}, ll := s.h.ll - {k}),
       hist := s.hist + [Last(s.hist) - {key}],
       retL := s.retL[k := Ret(r, |s.hist| - 1)], retN := s.retN[b := Ret(r, |s.hist|)])
  }

  /** The memory in between. */
  ghost function Unlinked(s: Shared, key: Key, b: nat, k: nat, i: Nib, r: nat): Shared
    requires AtFork(s, key, b, k, i) && s.hist != []
  {
    s.(h := SetKid(s.h, b, key[s.h.nodes[b].depth], Null).(ll := s.h.ll - {k}),
       hist := s.hist + [Last(s.hist) - {key}], retL := s.retL[k := Ret(r, |s.hist| - 1)])
  }

  lemma LosesLeaf(y: Sys, b: nat, k: nat, i: Nib) returns (z: Sys)
    requires Reachable(y) && y.w.pc == RemUnlink && AtFork(y.s, y.w.key, b, k, i) && y.s.hist != []
    requires y.w.slot == ChildSlot(b, y.w.key[y.s.h.nodes[b].depth]) && y.w.k == k
    ensures Reachable(z) && z.readers == y.readers && z.w == y.w.(pc := RemCount, b := b)
    ensures z.s == Unlinked(y.s, y.w.key, b, k, i, y.w.r)
  {
    z := Go(y, Unlinked(y.s, y.w.key, b, k, i, y.w.r), y.w.(pc := RemCount, b := b));
  }

  lemma CountsKids(y: Sys, i: Nib) returns (z: Sys)
    requires Reachable(y) && y.w.pc == RemCount && y.w.b in y.s.h.nodes
    requires !TwoKids(y.s.h.nodes[y.w.b]) && OnlyKid(y.s.h.nodes[y.w.b], i)
    ensures Reachable(z) && z.readers == y.readers && z.s == y.s && z.w == y.w.(pc := RemSkip, i := i)
  {
    z := Go(y, y.s, y.w.(pc := RemSkip, i := i));
  }

  lemma SkipsNode(y: Sys, i: Nib) returns (z: Sys)
    requires Reachable(y) && y.w.pc == RemSkip && y.w.i == i && y.w.up == RootSlot && y.s.hist != []
    requires y.w.b in y.s.h.nodes
    ensures Reachable(z) && z.readers == y.readers && z.w == y.w.(pc := RemPendN)
    ensures z.s == y.s.(h := y.s.h.(root := y.s.h.nodes[y.w.b].child[i], ln := y.s.h.ln - {y.w.b}),
                        retN := y.s.retN[y.w.b := Ret(y.w.r, |y.s.hist| - 1)])
  {
    var s, b := y.s, y.w.b;
    z := Go(y, s.(h := s.h.(root := s.h.nodes[b].child[i], ln := s.h.ln - {b}),
                  retN := s.retN[b := Ret(y.w.r, |s.hist| - 1)]),
            y.w.(pc := RemPendN));
  }

  lemma UnlinksLeaf(y: Sys, b: nat, k: nat, i: Nib) returns (z: Sys)
    requires Reachable(y) && y.w.pc == RemUnlink && AtFork(y.s, y.w.key, b, k, i) && y.s.hist != []
    requires y.w.slot == ChildSlot(b, y.w.key[y.s.h.nodes[b].depth]) && y.w.k == k && y.w.up == RootSlot
    ensures Reachable(z) && z.readers == y.readers && z.w.pc == RemPendN && z.w.r == y.w.r && z.w.b == b && z.w.k == k
    ensures z.s == Skipped(y.s, y.w.key, b, k, i, y.w.r)
  {
    UnlinkedFork(y.s, y.w.key, b, k, i, y.w.r);
    z := LosesLeaf(y, b, k, i);
    z := CountsKids(z, i);
    z := SkipsNode(z, i);
  }

  lemma UnlinkedFork(s: Shared, key: Key, b: nat, k: nat, i: Nib, r: nat)
    requires AtFork(s, key, b, k, i) && s.hist != []
    ensures var u := Unlinked(s, key, b, k, i, r);
      && b in u.h.nodes && !TwoKids(u.h.nodes[b]) && OnlyKid(u.h.nodes[b], i) && u.hist != []
      && Skipped(s, key, b, k, i, r) == u.(h := u.h.(root := u.h.nodes[b].child[i], ln := u.h.ln - {b}),
                                           retN := u.retN[b := Ret(r, |u.hist| - 1)])
  {
    OnlyOther(s.h.nodes[b], key[s.h.nodes[b].depth], i);
  }

  /** With one of its two children gone a node has an only one. */
  lemma OnlyOther(n: Node, gone: Nib, i: Nib)
    requires i != gone && n.child[i] != Null && forall j: Nib | j != i && j != gone :: n.child[j] == Null
    ensures var m := n.(child := n.child[gone := Null]); !TwoKids(m) && OnlyKid(m, i)
  {
  }

  lemma NodeWaits(y: Sys) returns (z: Sys)
    requires Reachable(y) && y.w.pc == RemPendN && y.w.k in y.s.h.leaves
    ensures Reachable(z) && z.readers == y.readers && z.w == y.w.(pc := RemPendL, res := y.s.h.leaves[y.w.k].value)
    ensures z.s == y.s.(pendN := y.s.pendN[Cell(y.w.r) := N(y.w.b)])
  {
    z := Go(y, y.s.(pendN := y.s.pendN[Cell(y.w.r) := N(y.w.b)]), y.w.(pc := RemValue));
    z := Go(z, z.s, z.w.(pc := RemPendL, res := y.s.h.leaves[y.w.k].value));
  }

  lemma LeafWaits(y: Sys) returns (z: Sys)
    requires Reachable(y) && y.w.pc == RemPendL
    ensures Reachable(z) && z.readers == y.readers && z.w.pc == Idle
    ensures z.s == y.s.(pendL := y.s.pendL[Cell(y.w.r) := L(y.w.k)])
  {
    z := Go(y, y.s.(pendL := y.s.pendL[Cell(y.w.r) := L(y.w.k)]), y.w.(pc := RemDone));
    z := Go(z, z.s, z.w.(pc := Idle));
  }

  /** The count does not matter to it. */
  lemma SkippedCounted(s: Shared, key: Key, b: nat, k: nat, i: Nib, r: nat, n: nat)
    requires AtFork(s, key, b, k, i) && s.hist != []
    ensures AtFork(s.(count := n), key, b, k, i)
    ensures Skipped(s.(count := n), key, b, k, i, r) == Skipped(s, key, b, k, i, r).(count := n)
  {
  }

  /** A remove that unlinks a leaf and the node above it. */
  lemma RemoveForked(y: Sys, key: Key, b: nat, k: nat, i: Nib) returns (z: Sys)
    requires Reachable(y) && y.w.pc == Idle && AtFork(y.s, key, b, k, i) && y.s.hist != []
    requires y.s.pendN[Cell(y.s.count)] == Null && y.s.pendL[Cell(y.s.count)] == Null
    ensures Reachable(z) && z.readers == y.readers && z.w.pc == Idle
    ensures z.s == Skipped(y.s, key, b, k, i, y.s.count)
                     .(count := y.s.count + 1, pendN := y.s.pendN[Cell(y.s.count) := N(b)],
                       pendL := y.s.pendL[Cell(y.s.count) := L(k)])
  {
    SkippedCounted(y.s, key, b, k, i, y.s.count, y.s.count + 1);
    z := RemoveBegins(y, key);
    z := NothingFreed(z);
    z := FindsLeaf(z, b, k, i);
    z := UnlinksLeaf(z, b, k, i);
    z := NodeWaits(z);
    z := LeafWaits(z);
  }

  // ---------- the run ----------

  /** The three keys: the one that is looked up, one next to it, and one apart. */
  function Wanted(): Key { seq(16, i => if i == 0 then 5 else 0) }
  function Sibling(): Key { seq(16, i => if i == 0 then 5 else if i == 1 then 1 else 0) }
  function Apart(): Key { seq(16, i => if i == 0 then 6 else 0) }

  /** The addresses of the leaves in this order, and of the lower and the upper node. */
  const LOWER: nat := 1
  const UPPER: nat := 2

  ghost predicate Bare(s: Shared) {
    && s.poolN == Null && s.poolL == 0 && s.count == 0 && s.hist != []
    && (forall j | 0 <= j < DELETED_LIFE :: s.pendN[j] == Null && s.pendL[j] == Null)
  }

  ghost predicate Leaves3(h: Heap) {
    h.leaves.Keys == {1, 2, 3} && h.leaves[1].key == Wanted() && h.leaves[2].key == Sibling() &&
      h.leaves[3].key == Apart()
  }

  /** Two keys under the lower node. */
  lemma TwoKeys() returns (y: Sys)
    ensures Reachable(y) && y.readers == map[] && y.w.pc == Idle && Bare(y.s) && y.s.h.root == N(LOWER)
    ensures y.s.h.nodes == map[LOWER := Fork(Sibling(), 1, 2, 0, L(1))]
    ensures y.s.h.leaves == map[1 := Leaf(Wanted(), 7), 2 := Leaf(Sibling(), 8)] && Wanted() in Last(y.s.hist)
  {
    y := Start();
    y := InsertFirst(y, Wanted(), 7, 1);
    assert !(Wanted() <= Sibling()) by { assert Wanted()[1] != Sibling()[1]; }
    FirstDiffIs(Sibling(), Wanted(), 1);
    y := InsertAbove(y, Sibling(), 8, 2, LOWER, 1);
  }

  lemma Start() returns (y: Sys)
    ensures Reachable(y) && y.readers == map[] && y.w.pc == Idle && Bare(y.s)
    ensures y.s.h == Heap(Null, map[], map[], {}, {})
  {
    var w := Writer(Idle, Wanted(), 0, false, map[], RootSlot, Null, RootSlot, 0, 0, 0, 0, ToExist, Ok, 0);
    var s := Shared(Heap(Null, map[], map[], {}, {}), Null, 0, seq(DELETED_LIFE, i => Null),
      seq(DELETED_LIFE, i => Null),
                    0, [map[]], [], [], {}, {}, map[], map[]);
    y := Sys(s, w, map[]);
    assert EndsIn([y], y);
  }

  /** The first place where a key and a location differ. */
  lemma FirstDiffIs(key: Key, loc: seq<Nib>, d: Nib)
    requires |loc| <= 16 && !(loc <= key) && d < |loc| && key[..d] == loc[..d] && key[d] != loc[d]
    ensures FirstDiff(key, loc) == d
  {
    var e := FirstDiff(key, loc);
    assert forall j | 0 <= j < d :: key[j] == key[..d][j] && loc[j] == loc[..d][j];
    assert forall j | 0 <= j < e :: key[j] == key[..e][j] && loc[j] == loc[..e][j];
  }

  /** The third key above them. */
  lemma ThreeKeys() returns (y: Sys)
    ensures Reachable(y) && y.readers == map[] && y.w.pc == Idle && Bare(y.s) && y.s.h.root == N(UPPER)
    ensures y.s.h.nodes == map[LOWER := Fork(Sibling(), 1, 2, 0, L(1)), UPPER := Fork(Apart(), 0, 3, 5, N(LOWER))]
    ensures Leaves3(y.s.h) && Wanted() in Last(y.s.hist)
  {
    y := TwoKeys();
    assert Sibling()[..1] == [5] && !([5] <= Apart()) by { assert Apart()[0] == 6; }
    FirstDiffIs(Apart(), [5], 0);
    y := InsertAbove(y, Apart(), 9, 3, UPPER, 0);
  }

  /** A step of reader 0. */
  lemma Load(y: Sys) returns (z: Sys)
    requires Reachable(y) && |y.s.hist| > 0 && 0 in y.readers && ReaderSafe(y.s, y.readers[0])
    ensures Reachable(z) && z == y.(readers := y.readers[0 := ReaderNext(y.s, y.readers[0])])
  {
    z := y.(readers := y.readers[0 := ReaderNext(y.s, y.readers[0])]);
    assert ReaderStep(y, z, 0);
    StepReaches(y, z);
  }

  /** A reader that wants the first key, and holds link `p`, since before the first remove. */
  ghost predicate Holds(y: Sys, p: Ptr) {
    0 in y.readers && y.readers[0].RWalk? && y.readers[0].key == Wanted() && y.readers[0].wc == 0 && y.readers[0].p == p
  }

  lemma ReaderComes(y: Sys) returns (z: Sys)
    requires Reachable(y) && y.readers == map[] && y.s.hist != [] && y.s.count == 0
    ensures Reachable(z) && z.s == y.s && z.w == y.w && Holds(z, y.s.h.root) && z.readers[0].cs == |y.s.hist| - 1
  {
    z := y.(readers := map[0 := RStart(Wanted(), |y.s.hist| - 1)]);
    assert ReaderStep(y, z, 0);
    StepReaches(y, z);
    z := Load(z);
    z := Load(z);
  }

  /** Both nodes are unlinked and wait, and only the wanted leaf is left. */
  ghost predicate BothWait(s: Shared) {
    && s.count == 2 && s.poolN == Null && s.poolL == 0 && s.hist != [] && Wanted() in Last(s.hist)
    && s.pendN[0] == N(UPPER) && s.pendN[1] == N(LOWER) && s.pendL[0] == L(3) && s.pendL[1] == L(2)
    && (forall j | 2 <= j < DELETED_LIFE :: s.pendN[j] == Null && s.pendL[j] == Null)
    && Leaves3(s.h) && s.h.root == L(1) && Linked(s.h)
  }

  /** The upper node leads to the lower one. */
  ghost predicate Linked(h: Heap) {
    && h.nodes.Keys == {LOWER, UPPER} && h.nodes[UPPER].depth == 0 && h.nodes[LOWER].depth == 1
    && h.nodes[UPPER].child[5] == N(LOWER)
  }

  lemma RemovesUpper(y: Sys) returns (z: Sys)
    requires Reachable(y) && y.w.pc == Idle && Bare(y.s) && y.s.h.root == N(UPPER) && Leaves3(y.s.h)
    requires y.s.h.nodes == map[LOWER := Fork(Sibling(), 1, 2, 0, L(1)), UPPER := Fork(Apart(), 0, 3, 5, N(LOWER))]
    requires Wanted() in Last(y.s.hist)
    ensures Reachable(z) && z.readers == y.readers && z.w.pc == Idle && z.s.count == 1 && z.s.hist != []
    ensures z.s.h.root == N(LOWER) && Leaves3(z.s.h) && Wanted() in Last(z.s.hist) && Linked(z.s.h)
    ensures z.s.h.nodes[LOWER] == y.s.h.nodes[LOWER] && z.s.poolN == Null && z.s.poolL == 0
    ensures z.s.pendN == y.s.pendN[0 := N(UPPER)] && z.s.pendL == y.s.pendL[0 := L(3)]
    ensures z.s.hist == y.s.hist + [Last(y.s.hist) - {Apart()}]
  {
    assert Apart() != Wanted() by { assert Apart()[0] != Wanted()[0]; }
    assert AtFork(y.s, Apart(), UPPER, 3, 5);
    z := RemoveForked(y, Apart(), UPPER, 3, 5);
  }

  lemma RemovesLower(y: Sys) returns (z: Sys)
    requires Reachable(y) && y.w.pc == Idle && y.s.count == 1 && y.s.hist != [] && y.s.h.root == N(LOWER)
    requires Leaves3(y.s.h) && Wanted() in Last(y.s.hist) && Linked(y.s.h) && y.s.poolN == Null && y.s.poolL == 0
    requires y.s.h.nodes[LOWER] == Fork(Sibling(), 1, 2, 0, L(1)) && y.s.pendN[0] == N(UPPER) && y.s.pendL[0] == L(3)
    requires forall j | 1 <= j < DELETED_LIFE :: y.s.pendN[j] == Null && y.s.pendL[j] == Null
    ensures Reachable(z) && z.readers == y.readers && z.w.pc == Idle && BothWait(z.s)
    ensures z.s.hist == y.s.hist + [Last(y.s.hist) - {Sibling()}]
  {
    assert Sibling() != Wanted() by { assert Sibling()[1] != Wanted()[1]; }
    assert AtFork(y.s, Sibling(), LOWER, 2, 0);
    z := RemoveForked(y, Sibling(), LOWER, 2, 0);
  }

  /** Removes that find nothing, until the first node is due. */
  lemma {:induction false} Waits(y: Sys) returns (z: Sys)
    requires Reachable(y) && y.w.pc == Idle && 2 <= y.s.count <= 16 && BothWait(y.s.(count := 2))
    ensures Reachable(z) && z.readers == y.readers && z.w.pc == Idle && z.s == y.s.(count := 16)
    decreases 16 - y.s.count
  {
    if y.s.count < 16 {
      assert Apart() != Wanted() by { assert Apart()[0] != Wanted()[0]; }
      z := RemoveNothing(y, Apart());
      z := Waits(z);
    } else {
      z := y;
    }
  }

  /** Both nodes are in the pool, and lead to each other. */
  ghost predicate Round(s: Shared) {
    Linked(s.h) && s.h.nodes[LOWER].child[0] == N(UPPER) && s.count == 18 && s.hist != [] && Wanted() in Last(s.hist)
  }

  lemma UpperPooled(y: Sys) returns (z: Sys)
    requires Reachable(y) && y.w.pc == Idle && y.s.count == 16 && BothWait(y.s.(count := 2))
    ensures Reachable(z) && z.readers == y.readers && z.w.pc == Idle && z.s.count == 17 && z.s.poolN == N(UPPER)
    ensures Leaves3(z.s.h) && z.s.h.root == L(1) && Linked(z.s.h) && z.s.hist == y.s.hist
    ensures z.s.pendN[1] == N(LOWER) && z.s.pendL[1] == L(2)
  {
    assert Apart() != Wanted() by { assert Apart()[0] != Wanted()[0]; }
    z := RemoveFrees(y, Apart(), UPPER, 3);
  }

  lemma LowerPooled(y: Sys) returns (z: Sys)
    requires Reachable(y) && y.w.pc == Idle && y.s.count == 17 && y.s.poolN == N(UPPER) && Leaves3(y.s.h)
    requires y.s.h.root == L(1) && Linked(y.s.h) && y.s.hist != [] && Wanted() in Last(y.s.hist)
    requires y.s.pendN[1] == N(LOWER) && y.s.pendL[1] == L(2)
    ensures Reachable(z) && z.readers == y.readers && z.w.pc == Idle && Round(z.s)
    ensures z.s.hist == y.s.hist
  {
    assert Apart() != Wanted() by { assert Apart()[0] != Wanted()[0]; }
    z := RemoveFrees(y, Apart(), LOWER, 2);
  }

  /** Four loads lead the reader back to where it was. */
  lemma GoesRound(y: Sys) returns (a: Sys, b: Sys, c: Sys)
    requires Round(y.s) && Holds(y, N(UPPER))
    ensures ReaderStep(y, a, 0) && ReaderStep(a, b, 0) && ReaderStep(b, c, 0) && ReaderStep(c, y, 0)
    ensures a.readers[0].RChild? && b.readers[0].RWalk? && c.readers[0].RChild?
  {
    var rd := y.readers[0];
    a := y.(readers := y.readers[0 := ReaderNext(y.s, rd)]);
    b := a.(readers := a.readers[0 := ReaderNext(y.s, a.readers[0])]);
    c := b.(readers := b.readers[0 := ReaderNext(y.s, b.readers[0])]);
    assert c.readers[0 := ReaderNext(y.s, c.readers[0])] == y.readers;
  }

  /** The reader waits at the upper node while both are unlinked; its key stays in the map. */
  lemma BothUnlinked() returns (y: Sys)
    ensures Reachable(y) && y.w.pc == Idle && BothWait(y.s) && Holds(y, N(UPPER)) && InMapSince(y)
  {
    y := ThreeKeys();
    y := ReaderComes(y);
    var hist := y.s.hist;
    y := RemovesUpper(y);
    y := RemovesLower(y);
    assert Wanted()[0] != Apart()[0] && Wanted()[1] != Sibling()[1];
    assert y.s.hist == hist + [Last(hist) - {Apart()}] + [Last(hist) - {Apart()} - {Sibling()}];
  }

  /** The key of reader 0 is in every version of the map since its call. */
  ghost predicate InMapSince(y: Sys) {
    0 in y.readers && forall j | y.readers[0].cs <= j < |y.s.hist| :: y.readers[0].key in y.s.hist[j]
  }

  /**
    A reachable state in which the lock is free, and in which a lookup whose key has been in the map since
    its call goes round for ever: four loads lead back to the same state.
   */
  lemma LookupNeverEnds() returns (y: Sys, a: Sys, b: Sys, c: Sys)
    ensures Reachable(y) && y.w.pc == Idle && InMapSince(y) && y.readers[0].RWalk?
    ensures ReaderStep(y, a, 0) && ReaderStep(a, b, 0) && ReaderStep(b, c, 0) && ReaderStep(c, y, 0)
    ensures a.readers[0].RChild? && b.readers[0].RWalk? && c.readers[0].RChild?
  {
    y := BothUnlinked();
    y := Waits(y);
    y := UpperPooled(y);
    y := LowerPooled(y);
    a, b, c := GoesRound(y);
  }
}
