/**
  The memory of a critnib: a 4-bit radix tree that skips every level with a single child.

  A key is the sequence of its sixteen nibbles, most significant first. A node's `path`
  is the string of nibbles above it and `depth` is the index of the nibble it branches
  on (module CritnibWord relates both to the word-level `path` and `shift`).

  The tree is described without recursion. Every place that can hold a link is a `Slot`
  with the prefix that any key reached through it must have, and every linked object has
  a location string. The shape invariant then is that a link stays inside its slot's
  prefix, that a slot's link covers everything live inside the slot's prefix, and that
  locations are unique.
 */
module CritnibHeap {

  type Nib = n: nat | n < 16
  type Key = k: seq<Nib> | |k| == 16 witness seq(16, i => 0)
  type Kids = s: seq<Ptr> | |s| == 16 witness seq(16, i => Null)

  /** A tagged link: nothing, an inner node or a leaf. */
  datatype Ptr = Null | N(a: nat) | L(a: nat)

  datatype Node = Node(child: Kids, depth: Nib, path: seq<Nib>)

  datatype Leaf = Leaf(key: Key, value: nat)

  /** `ln` and `ll` are the nodes and leaves that are part of the tree. */
  datatype Heap = Heap(root: Ptr, nodes: map<nat, Node>, leaves: map<nat, Leaf>, ln: set<nat>, ll: set<nat>)

  datatype Slot = RootSlot | ChildSlot(a: nat, i: Nib)

  ghost predicate Live(h: Heap, p: Ptr) {
    match p
    case Null => false
    case N(a) => a in h.ln && a in h.nodes
    case L(a) => a in h.ll && a in h.leaves
  }

  ghost predicate LiveSlot(h: Heap, s: Slot) {
    s.ChildSlot? ==> s.a in h.ln && s.a in h.nodes
  }

  /** The nibbles shared by every key at or below a live link. */
  ghost function Loc(h: Heap, p: Ptr): seq<Nib>
    requires Live(h, p)
  {
    if p.N? then h.nodes[p.a].path else h.leaves[p.a].key
  }

  ghost function Get(h: Heap, s: Slot): Ptr
    requires LiveSlot(h, s)
  {
    if s.RootSlot? then h.root else h.nodes[s.a].child[s.i]
  }

  /** A single store through a slot. */
  ghost function Put(h: Heap, s: Slot, p: Ptr): Heap
    requires LiveSlot(h, s)
  {
    if s.RootSlot? then h.(root := p)
    else h.(nodes := h.nodes[s.a := h.nodes[s.a].(child := h.nodes[s.a].child[s.i := p])])
  }

  ghost function Pre(h: Heap, s: Slot): seq<Nib>
    requires LiveSlot(h, s)
  {
    if s.RootSlot? then [] else h.nodes[s.a].path + [s.i]
  }

  ghost predicate Covers(h: Heap, p: Ptr, loc: seq<Nib>) {
    Live(h, p) && Loc(h, p) <= loc
  }

  ghost predicate Allocated(h: Heap) {
    && h.ln <= h.nodes.Keys
    && h.ll <= h.leaves.Keys
    && forall a | a in h.ln :: |h.nodes[a].path| == h.nodes[a].depth
  }

  ghost predicate LinksInside(h: Heap) {
    forall s | LiveSlot(h, s) && Get(h, s) != Null ::
      Live(h, Get(h, s)) && Pre(h, s) <= Loc(h, Get(h, s))
  }

  ghost predicate Coverage(h: Heap) {
    forall s, q | LiveSlot(h, s) && Live(h, q) && Pre(h, s) <= Loc(h, q) ::
      Covers(h, Get(h, s), Loc(h, q))
  }

  ghost predicate UniqueLocs(h: Heap) {
    forall p, q | Live(h, p) && Live(h, q) && Loc(h, p) == Loc(h, q) :: p == q
  }

  /** What every store into the tree keeps. */
  ghost predicate Shape(h: Heap) {
    Allocated(h) && LinksInside(h) && Coverage(h) && UniqueLocs(h)
  }

  ghost predicate TwoKids(n: Node) {
    exists i: Nib, j: Nib :: i < j && n.child[i] != Null && n.child[j] != Null
  }

  /** Path compression: no live node has fewer than two children. */
  ghost predicate Compressed(h: Heap) {
    forall a | a in h.ln && a in h.nodes :: TwoKids(h.nodes[a])
  }

  /** `m` is the finite map stored in the tree. */
  ghost predicate Represents(h: Heap, m: map<Key, nat>)
  {
    && (forall a | a in h.ll && a in h.leaves :: h.leaves[a].key in m && m[h.leaves[a].key] == h.leaves[a].value)
    && (forall k | k in m :: exists a :: a in h.ll && a in h.leaves && h.leaves[a].key == k)
  }

  // ---------- consequences of the shape ----------

  lemma SameSlot(h: Heap, s: Slot, t: Slot)
    requires Shape(h) && LiveSlot(h, s) && LiveSlot(h, t) && Pre(h, s) == Pre(h, t)
    ensures s == t
  {
    if s.ChildSlot? && t.ChildSlot? {
      var p := Pre(h, s);
      assert h.nodes[s.a].path == p[..|p| - 1] && h.nodes[t.a].path == p[..|p| - 1];
      assert Live(h, N(s.a)) && Live(h, N(t.a));
    }
  }

  /** Two live slots on the way to the same string are nested, and the outer one leads to the node of the inner one. */
  lemma SlotsNested(h: Heap, s: Slot, t: Slot, x: seq<Nib>)
    requires Shape(h) && LiveSlot(h, s) && LiveSlot(h, t) && s != t
    requires Pre(h, s) <= x && Pre(h, t) <= x && |Pre(h, s)| <= |Pre(h, t)|
    ensures t.ChildSlot? && Covers(h, Get(h, s), h.nodes[t.a].path)
  {
    if |Pre(h, s)| == |Pre(h, t)| {
      assert Pre(h, s) == Pre(h, t);
      SameSlot(h, s, t);
    } else {
      assert Live(h, N(t.a)) && Pre(h, s) <= h.nodes[t.a].path;
    }
  }

  /** No link is stored in two live slots: parents are unique. */
  lemma OneSlotPerLink(h: Heap, s: Slot, t: Slot)
    requires Shape(h) && LiveSlot(h, s) && LiveSlot(h, t)
    requires Get(h, s) == Get(h, t) != Null
    ensures s == t
  {
    var p := Get(h, s);
    assert Live(h, p);
    if s != t {
      if |Pre(h, s)| <= |Pre(h, t)| {
        SlotsNested(h, s, t, Loc(h, p));
      } else {
        SlotsNested(h, t, s, Loc(h, p));
      }
    }
  }

  /** A slot on the key's way whose link does not lead to the key proves the key absent. */
  lemma AbsentAt(h: Heap, m: map<Key, nat>, s: Slot, key: Key)
    requires Shape(h) && Represents(h, m) && LiveSlot(h, s) && Pre(h, s) <= key
    requires Get(h, s) == Null || !(Loc(h, Get(h, s)) <= key)
    ensures key !in m
  {
    if key in m {
      var a :| a in h.ll && a in h.leaves && h.leaves[a].key == key;
      assert Live(h, L(a));
    }
  }

  lemma NodeShorter(h: Heap, a: nat, key: Key)
    requires Shape(h) && a in h.ln && h.nodes[a].path <= key
    ensures LiveSlot(h, ChildSlot(a, key[h.nodes[a].depth]))
    ensures Pre(h, ChildSlot(a, key[h.nodes[a].depth])) <= key
  {
  }

  // ---------- the stores that change the tree ----------

  /** Shape and contents depend only on the live part of the memory. */
  lemma ShapeFrame(h: Heap, g: Heap, m: map<Key, nat>)
    requires Shape(h)
    requires g.root == h.root && g.ln == h.ln && g.ll == h.ll
    requires forall a | a in h.ln :: a in g.nodes && g.nodes[a] == h.nodes[a]
    requires forall a | a in h.ll :: a in g.leaves && g.leaves[a] == h.leaves[a]
    ensures Shape(g)
    ensures Compressed(h) ==> Compressed(g)
    ensures Represents(h, m) ==> Represents(g, m)
  {
    assert forall p :: Live(h, p) == Live(g, p);
    assert forall s :: LiveSlot(h, s) == LiveSlot(g, s);
    assert forall p | Live(h, p) :: Loc(h, p) == Loc(g, p);
    assert forall s | LiveSlot(h, s) :: Get(h, s) == Get(g, s) && Pre(h, s) == Pre(g, s);
  }

  /** `g` is `h` after leaf `k` has been linked into the empty slot `s`. */
  ghost predicate LeafAdded(h: Heap, g: Heap, s: Slot, k: nat) {
    && LiveSlot(h, s) && Get(h, s) == Null
    && k in h.leaves && k !in h.ll && Pre(h, s) <= h.leaves[k].key
    && g == Put(h, s, L(k)).(ll := h.ll + {k})
  }

  lemma LeafAddedView(h: Heap, g: Heap, s: Slot, k: nat)
    requires Shape(h) && LeafAdded(h, g, s, k)
    ensures forall p :: Live(g, p) <==> Live(h, p) || p == L(k)
    ensures forall p | Live(h, p) :: Loc(g, p) == Loc(h, p) && !(Pre(h, s) <= Loc(h, p))
    ensures forall t :: LiveSlot(g, t) <==> LiveSlot(h, t)
    ensures forall t | LiveSlot(h, t) :: Pre(g, t) == Pre(h, t) && Get(g, t) == (if t == s then L(k) else Get(h, t))
  {
    assert forall p | Live(h, p) && Pre(h, s) <= Loc(h, p) :: Covers(h, Get(h, s), Loc(h, p));
  }

  lemma LeafAddedCoverage(h: Heap, g: Heap, s: Slot, k: nat, t: Slot, q: Ptr)
    requires Shape(h) && LeafAdded(h, g, s, k)
    requires LiveSlot(g, t) && Live(g, q) && Pre(g, t) <= Loc(g, q)
    ensures Covers(g, Get(g, t), Loc(g, q))
  {
    LeafAddedView(h, g, s, k);
    var key := h.leaves[k].key;
    if q != L(k) {
      assert Covers(h, Get(h, t), Loc(h, q));
    } else if t != s {
      if |Pre(h, t)| <= |Pre(h, s)| {
        SlotsNested(h, t, s, key);
      } else {
        SlotsNested(h, s, t, key);
      }
    }
  }

  lemma LeafAddedMap(h: Heap, g: Heap, s: Slot, k: nat, m: map<Key, nat>)
    requires Shape(h) && LeafAdded(h, g, s, k) && Represents(h, m)
    ensures h.leaves[k].key !in m
    ensures Represents(g, m[h.leaves[k].key := h.leaves[k].value])
  {
    var key := h.leaves[k].key;
    AbsentAt(h, m, s, key);
    var m' := m[key := h.leaves[k].value];
    forall x | x in m' ensures exists a :: a in g.ll && a in g.leaves && g.leaves[a].key == x {
      if x == key {
        assert k in g.ll;
      } else {
        var a :| a in h.ll && a in h.leaves && h.leaves[a].key == x;
        assert a in g.ll;
      }
    }
  }

  lemma LeafAddedCompressed(h: Heap, g: Heap, s: Slot, k: nat)
    requires LeafAdded(h, g, s, k) && Compressed(h)
    ensures Compressed(g)
  {
    forall a | a in g.ln && a in g.nodes ensures TwoKids(g.nodes[a]) {
      var i: Nib, j: Nib :| i < j && h.nodes[a].child[i] != Null && h.nodes[a].child[j] != Null;
      assert g.nodes[a].child[i] != Null && g.nodes[a].child[j] != Null;
    }
  }

  /** Linking a fresh leaf into an empty slot on its key's way. */
  lemma AddLeaf(h: Heap, g: Heap, s: Slot, k: nat)
    requires Shape(h) && LeafAdded(h, g, s, k)
    ensures Shape(g)
  {
    LeafAddedView(h, g, s, k);
    forall t, q | LiveSlot(g, t) && Live(g, q) && Pre(g, t) <= Loc(g, q) ensures Covers(g, Get(g, t), Loc(g, q)) {
      LeafAddedCoverage(h, g, s, k, t, q);
    }
  }

  /** The children of the node an insert puts above link `rest`: the new leaf, `rest` and nothing else. */
  ghost predicate SplitNode(n: Node, key: Key, k: nat, rest: Ptr, loc: seq<Nib>) {
    && n.depth < |loc| && n.depth == |n.path|
    && n.path <= key && n.path <= loc && key[n.depth] != loc[n.depth]
    && n.child[key[n.depth]] == L(k) && n.child[loc[n.depth]] == rest
    && forall i: Nib | i != key[n.depth] && i != loc[n.depth] :: n.child[i] == Null
  }

  /** `g` is `h` after node `b`, holding the link of slot `s` and leaf `k`, has been stored into `s`. */
  ghost predicate NodeAdded(h: Heap, g: Heap, s: Slot, b: nat, k: nat) {
    && LiveSlot(h, s) && Live(h, Get(h, s))
    && k in h.leaves && k !in h.ll && b in h.nodes && b !in h.ln
    && Pre(h, s) <= h.nodes[b].path
    && SplitNode(h.nodes[b], h.leaves[k].key, k, Get(h, s), Loc(h, Get(h, s)))
    && g == Put(h, s, N(b)).(ln := h.ln + {b}, ll := h.ll + {k})
  }

  lemma NodeAddedView(h: Heap, g: Heap, s: Slot, b: nat, k: nat)
    requires Shape(h) && NodeAdded(h, g, s, b, k)
    ensures forall p :: Live(g, p) <==> Live(h, p) || p == L(k) || p == N(b)
    ensures forall p | Live(h, p) ::
      Loc(g, p) == Loc(h, p) && (Pre(h, s) <= Loc(h, p) ==> Loc(h, Get(h, s)) <= Loc(h, p))
    ensures Loc(g, L(k)) == h.leaves[k].key && Loc(g, N(b)) == h.nodes[b].path
    ensures forall t :: LiveSlot(g, t) <==> LiveSlot(h, t) || (t.ChildSlot? && t.a == b)
    ensures forall t | LiveSlot(h, t) :: Pre(g, t) == Pre(h, t) && Get(g, t) == (if t == s then N(b) else Get(h, t))
    ensures forall i: Nib ::
      Get(g, ChildSlot(b, i)) == h.nodes[b].child[i] && Pre(g, ChildSlot(b, i)) == h.nodes[b].path + [i]
  {
    assert forall p | Live(h, p) && Pre(h, s) <= Loc(h, p) :: Covers(h, Get(h, s), Loc(h, p));
  }

  /** Coverage of slots that were there before. */
  lemma NodeAddedCoverage(h: Heap, g: Heap, s: Slot, b: nat, k: nat, t: Slot, q: Ptr)
    requires Shape(h) && NodeAdded(h, g, s, b, k)
    requires LiveSlot(h, t) && Live(g, q) && Pre(g, t) <= Loc(g, q)
    ensures Covers(g, Get(g, t), Loc(g, q))
  {
    NodeAddedView(h, g, s, b, k);
    var path := h.nodes[b].path;
    if t == s {
      if Live(h, q) { assert path <= Loc(h, Get(h, s)) <= Loc(h, q); }
    } else if Live(h, q) {
      assert Covers(h, Get(h, t), Loc(h, q));
    } else if |Pre(h, t)| <= |Pre(h, s)| {
      SlotsNested(h, t, s, Loc(g, q));
    } else {
      NoSlotBetween(h, g, s, b, k, t, q);
    }
  }

  lemma DivergeNotPrefix(a: seq<Nib>, b: seq<Nib>, d: nat)
    requires d < |a| && (d < |b| ==> a[d] != b[d])
    ensures !(a <= b)
  {
  }

  /** Below the old link's location no live slot leads to the new node or the new leaf. */
  lemma NoSlotBetween(h: Heap, g: Heap, s: Slot, b: nat, k: nat, t: Slot, q: Ptr)
    requires Shape(h) && NodeAdded(h, g, s, b, k) && LiveSlot(h, t) && t != s
    requires q == N(b) || q == L(k)
    requires |Pre(h, s)| < |Pre(h, t)|
    ensures !(Pre(h, t) <= if q == N(b) then h.nodes[b].path else h.leaves[k].key)
  {
    var x := if q == N(b) then h.nodes[b].path else h.leaves[k].key;
    DivergeNotPrefix(Loc(h, Get(h, s)), x, h.nodes[b].depth);
    if Pre(h, t) <= x {
      SlotsNested(h, s, t, x);
    }
  }

  /** Coverage of the new node's own slots. */
  lemma NewNodeCoverage(h: Heap, g: Heap, s: Slot, b: nat, k: nat, i: Nib, q: Ptr)
    requires Shape(h) && NodeAdded(h, g, s, b, k)
    requires Live(g, q) && h.nodes[b].path + [i] <= Loc(g, q)
    ensures Covers(g, h.nodes[b].child[i], Loc(g, q))
  {
    NodeAddedView(h, g, s, b, k);
    var path := h.nodes[b].path;
    assert i == Loc(g, q)[|path|];
    if Live(h, q) {
      assert Pre(h, s) <= Loc(h, q);
      assert Loc(h, Get(h, s)) <= Loc(h, q);
    }
  }

  lemma NewLocs(h: Heap, g: Heap, s: Slot, b: nat, k: nat, q: Ptr)
    requires Shape(h) && NodeAdded(h, g, s, b, k) && Live(h, q)
    ensures Loc(h, q) != h.nodes[b].path && Loc(h, q) != h.leaves[k].key
  {
    var d := h.nodes[b].depth;
    if Pre(h, s) <= Loc(h, q) {
      assert Covers(h, Get(h, s), Loc(h, q));
      assert Loc(h, q)[d] == Loc(h, Get(h, s))[d];
    }
  }

  lemma NodeAddedLocs(h: Heap, g: Heap, s: Slot, b: nat, k: nat)
    requires Shape(h) && NodeAdded(h, g, s, b, k)
    ensures UniqueLocs(g)
  {
    NodeAddedView(h, g, s, b, k);
    forall q | Live(h, q) ensures Loc(h, q) != h.nodes[b].path && Loc(h, q) != h.leaves[k].key {
      NewLocs(h, g, s, b, k, q);
    }
    assert |h.nodes[b].path| < 16;
  }

  lemma NodeAddedLinks(h: Heap, g: Heap, s: Slot, b: nat, k: nat)
    requires Shape(h) && NodeAdded(h, g, s, b, k)
    ensures LinksInside(g)
  {
    NodeAddedView(h, g, s, b, k);
  }

  /** Storing a new inner node that splits the slot's link from the new leaf. */
  lemma AddNode(h: Heap, g: Heap, s: Slot, b: nat, k: nat)
    requires Shape(h) && NodeAdded(h, g, s, b, k)
    ensures Shape(g)
  {
    NodeAddedLocs(h, g, s, b, k);
    NodeAddedLinks(h, g, s, b, k);
    NodeAddedView(h, g, s, b, k);
    forall t, q | LiveSlot(g, t) && Live(g, q) && Pre(g, t) <= Loc(g, q) ensures Covers(g, Get(g, t), Loc(g, q)) {
      if LiveSlot(h, t) {
        NodeAddedCoverage(h, g, s, b, k, t, q);
      } else {
        NewNodeCoverage(h, g, s, b, k, t.i, q);
      }
    }
  }

  lemma NodeAddedMap(h: Heap, g: Heap, s: Slot, b: nat, k: nat, m: map<Key, nat>)
    requires Shape(h) && NodeAdded(h, g, s, b, k) && Represents(h, m)
    ensures h.leaves[k].key !in m
    ensures Represents(g, m[h.leaves[k].key := h.leaves[k].value])
  {
    var key := h.leaves[k].key;
    AbsentAt(h, m, s, key);
    var m' := m[key := h.leaves[k].value];
    forall x | x in m' ensures exists a :: a in g.ll && a in g.leaves && g.leaves[a].key == x {
      if x == key {
        assert k in g.ll;
      } else {
        var a :| a in h.ll && a in h.leaves && h.leaves[a].key == x;
        assert a in g.ll;
      }
    }
  }

  lemma NodeAddedCompressed(h: Heap, g: Heap, s: Slot, b: nat, k: nat)
    requires NodeAdded(h, g, s, b, k) && Compressed(h)
    ensures Compressed(g)
  {
    forall a | a in g.ln && a in g.nodes ensures TwoKids(g.nodes[a]) {
      if a == b {
        var n := g.nodes[b];
        var i, j := h.leaves[k].key[n.depth], Loc(h, Get(h, s))[n.depth];
        assert if i < j then n.child[i] != Null && n.child[j] != Null else n.child[j] != Null && n.child[i] != Null;
      } else {
        var i: Nib, j: Nib :| i < j && h.nodes[a].child[i] != Null && h.nodes[a].child[j] != Null;
        assert g.nodes[a].child[i] != Null && g.nodes[a].child[j] != Null;
      }
    }
  }

  /** `g` is `h` after the leaf in slot `s` has been unlinked. */
  ghost predicate LeafRemoved(h: Heap, g: Heap, s: Slot, k: nat) {
    && LiveSlot(h, s) && Get(h, s) == L(k) && k in h.ll && k in h.leaves
    && g == Put(h, s, Null).(ll := h.ll - {k})
  }

  lemma RemoveLeaf(h: Heap, g: Heap, s: Slot, k: nat)
    requires Shape(h) && LeafRemoved(h, g, s, k)
    ensures Shape(g)
  {
    assert forall p :: Live(g, p) <==> Live(h, p) && p != L(k);
    assert forall p | Live(g, p) :: Loc(g, p) == Loc(h, p);
    assert forall t :: LiveSlot(g, t) <==> LiveSlot(h, t);
    assert forall t | LiveSlot(h, t) :: Pre(g, t) == Pre(h, t) && Get(g, t) == (if t == s then Null else Get(h, t));
    forall t | LiveSlot(g, t) && Get(g, t) == L(k) ensures false {
      OneSlotPerLink(h, s, t);
    }
    forall t, q | LiveSlot(g, t) && Live(g, q) && Pre(g, t) <= Loc(g, q) ensures Covers(g, Get(g, t), Loc(g, q)) {
      assert Covers(h, Get(h, t), Loc(h, q));
      assert Live(h, L(k)) && |Loc(h, L(k))| == 16 && Loc(h, L(k)) != Loc(h, q);
    }
  }

  lemma LeafRemovedMap(h: Heap, g: Heap, s: Slot, k: nat, m: map<Key, nat>)
    requires Shape(h) && LeafRemoved(h, g, s, k) && Represents(h, m)
    ensures h.leaves[k].key in m && m[h.leaves[k].key] == h.leaves[k].value
    ensures Represents(g, m - {h.leaves[k].key})
  {
    var key := h.leaves[k].key;
    forall a | a in g.ll && a in g.leaves ensures g.leaves[a].key in m - {key} {
      assert Live(h, L(a)) && Live(h, L(k));
    }
    forall x | x in m - {key} ensures exists a :: a in g.ll && a in g.leaves && g.leaves[a].key == x {
      var a :| a in h.ll && a in h.leaves && h.leaves[a].key == x;
      assert a in g.ll;
    }
  }

  /** Unlinking a leaf spoils compression of at most the node it hung from. */
  lemma LeafRemovedCompressed(h: Heap, g: Heap, s: Slot, k: nat, a: nat)
    requires LeafRemoved(h, g, s, k) && Compressed(h) && a in g.ln && a in g.nodes
    requires s.ChildSlot? ==> s.a != a
    ensures TwoKids(g.nodes[a])
  {
    assert g.nodes[a] == h.nodes[a];
  }

  ghost predicate OnlyKid(n: Node, j: Nib) {
    n.child[j] != Null && forall i: Nib | i != j :: n.child[i] == Null
  }

  /** `g` is `h` after slot `s` has been made to skip node `b`, whose only child is number `j`. */
  ghost predicate NodeSkipped(h: Heap, g: Heap, s: Slot, b: nat, j: Nib) {
    && LiveSlot(h, s) && Get(h, s) == N(b) && b in h.ln && b in h.nodes && OnlyKid(h.nodes[b], j)
    && g == Put(h, s, h.nodes[b].child[j]).(ln := h.ln - {b})
  }

  lemma NodeSkippedView(h: Heap, g: Heap, s: Slot, b: nat, j: Nib)
    requires Shape(h) && NodeSkipped(h, g, s, b, j)
    ensures forall p :: Live(g, p) <==> Live(h, p) && p != N(b)
    ensures forall p | Live(g, p) :: Loc(g, p) == Loc(h, p)
    ensures forall t :: LiveSlot(g, t) <==> LiveSlot(h, t) && (t.ChildSlot? ==> t.a != b)
    ensures forall t | LiveSlot(g, t) ::
      Pre(g, t) == Pre(h, t) && Get(g, t) == (if t == s then h.nodes[b].child[j] else Get(h, t))
    ensures forall t | LiveSlot(g, t) :: Get(g, t) != N(b)
    ensures Live(g, h.nodes[b].child[j]) && Pre(h, s) <= Loc(h, h.nodes[b].child[j])
    ensures LiveSlot(g, s)
  {
    var c := ChildSlot(b, j);
    assert LiveSlot(h, c) && Get(h, c) == h.nodes[b].child[j];
    assert Live(h, N(b)) && Pre(h, s) <= h.nodes[b].path <= Pre(h, c) <= Loc(h, Get(h, c));
    forall t | LiveSlot(h, t) && Get(h, t) == N(b) ensures t == s {
      OneSlotPerLink(h, s, t);
    }
    assert |h.nodes[b].path| < |Pre(h, c)|;
    assert |Pre(h, s)| <= |h.nodes[b].path|;
  }

  lemma SkipNode(h: Heap, g: Heap, s: Slot, b: nat, j: Nib)
    requires Shape(h) && NodeSkipped(h, g, s, b, j)
    ensures Shape(g)
  {
    NodeSkippedView(h, g, s, b, j);
    forall t, q | LiveSlot(g, t) && Live(g, q) && Pre(g, t) <= Loc(g, q) ensures Covers(g, Get(g, t), Loc(g, q)) {
      assert Covers(h, Get(h, t), Loc(h, q));
      if t == s {
        assert h.nodes[b].path <= Loc(h, q);
        assert h.nodes[b].path != Loc(h, q) by { assert Live(h, N(b)) && Live(h, q); }
        var i: Nib := Loc(h, q)[|h.nodes[b].path|];
        assert LiveSlot(h, ChildSlot(b, i)) && Pre(h, ChildSlot(b, i)) <= Loc(h, q);
        assert Covers(h, Get(h, ChildSlot(b, i)), Loc(h, q));
      }
    }
  }

  lemma NodeSkippedMap(h: Heap, g: Heap, s: Slot, b: nat, j: Nib, m: map<Key, nat>)
    requires NodeSkipped(h, g, s, b, j) && Represents(h, m)
    ensures Represents(g, m)
  {
    forall x | x in m ensures exists a :: a in g.ll && a in g.leaves && g.leaves[a].key == x {
      var a :| a in h.ll && a in h.leaves && h.leaves[a].key == x;
      assert a in g.ll;
    }
  }

  lemma NodeSkippedCompressed(h: Heap, g: Heap, s: Slot, b: nat, j: Nib, a: nat)
    requires NodeSkipped(h, g, s, b, j) && a in g.ln && a in g.nodes && TwoKids(h.nodes[a])
    ensures TwoKids(g.nodes[a])
  {
    var x: Nib, y: Nib :| x < y && h.nodes[a].child[x] != Null && h.nodes[a].child[y] != Null;
    assert g.nodes[a].child[x] != Null && g.nodes[a].child[y] != Null;
  }

  lemma UpdateShape(h: Heap, g: Heap, k: nat, v: nat)
    requires Shape(h) && k in h.ll && k in h.leaves
    requires g == h.(leaves := h.leaves[k := h.leaves[k].(value := v)])
    ensures Shape(g)
    ensures Compressed(h) ==> Compressed(g)
  {
    assert forall p :: Live(h, p) == Live(g, p);
    assert forall s :: LiveSlot(h, s) == LiveSlot(g, s);
    assert forall p | Live(h, p) :: Loc(h, p) == Loc(g, p);
    assert forall s | LiveSlot(h, s) :: Get(h, s) == Get(g, s) && Pre(h, s) == Pre(g, s);
  }

  /** Overwriting the value of a linked leaf. */
  lemma UpdateValue(h: Heap, g: Heap, k: nat, v: nat, m: map<Key, nat>)
    requires UniqueLocs(h) && Represents(h, m) && k in h.ll && k in h.leaves
    requires g == h.(leaves := h.leaves[k := h.leaves[k].(value := v)])
    ensures Represents(g, m[h.leaves[k].key := v])
  {
    forall a | a in g.ll && a in g.leaves && a != k ensures h.leaves[a].key != h.leaves[k].key {
      assert Live(h, L(k)) && Live(h, L(a)) && L(a) != L(k);
    }
    forall x | x in m ensures exists a :: a in g.ll && a in g.leaves && g.leaves[a].key == x {
      var a :| a in h.ll && a in h.leaves && h.leaves[a].key == x;
      assert a in g.ll && g.leaves[a].key == x;
    }
  }

  /** The first nibble in which a key leaves a location. */
  function FirstDiff(key: Key, loc: seq<Nib>): (d: Nib)
    requires |loc| <= 16 && !(loc <= key)
    ensures d < |loc| && key[d] != loc[d] && key[..d] == loc[..d]
  {
    FirstDiffFrom(key, loc, 0)
  }

  function FirstDiffFrom(key: Key, loc: seq<Nib>, i: nat): (d: Nib)
    requires i < |loc| <= 16 && key[..i] == loc[..i] && !(loc <= key)
    ensures i <= d < |loc| && key[d] != loc[d] && key[..d] == loc[..d]
    decreases |loc| - i
  {
    assert key[..i + 1] == key[..i] + [key[i]] && loc[..i + 1] == loc[..i] + [loc[i]];
    assert key[i] == loc[i] ==> loc[..i + 1] <= key;
    if key[i] != loc[i] then i else FirstDiffFrom(key, loc, i + 1)
  }
}
