/** Ordered search in a critnib at rest: `critnib_find` in its five directions. */
module CritnibSearch {
  import opened Common
  import opened CritnibHeap
  import opened CritnibOrder

  ghost predicate TreeOk(h: Heap) {
    Shape(h) && Compressed(h)
  }

  /** Leaf `l` is at or below link `p`. */
  ghost predicate Under(h: Heap, p: Ptr, l: nat) {
    Live(h, p) && l in h.ll && l in h.leaves && Loc(h, p) <= h.leaves[l].key
  }

  function LeafVal(h: Heap, l: nat): nat
    requires l in h.leaves
  {
    Val(h.leaves[l].key)
  }

  /** A path as the word that a node stores: the missing low nibbles are zero. */
  function Pad(path: seq<Nib>): Key
    requires |path| <= 16
  {
    path + seq(16 - |path|, i => 0)
  }

  // ---------- leaves below a node ----------

  lemma IntoChild(h: Heap, a: nat, l: nat)
    requires Shape(h) && Under(h, N(a), l)
    ensures Under(h, h.nodes[a].child[h.leaves[l].key[h.nodes[a].depth]], l)
  {
    var key := h.leaves[l].key;
    NodeShorter(h, a, key);
    assert Live(h, L(l)) && Loc(h, L(l)) == key;
    assert Covers(h, Get(h, ChildSlot(a, key[h.nodes[a].depth])), key);
  }

  lemma OutOfChild(h: Heap, a: nat, i: Nib, l: nat)
    requires Shape(h) && Live(h, N(a)) && Under(h, h.nodes[a].child[i], l)
    ensures Under(h, N(a), l) && h.leaves[l].key[h.nodes[a].depth] == i
  {
    var s := ChildSlot(a, i);
    assert LiveSlot(h, s) && Get(h, s) == h.nodes[a].child[i];
    assert Pre(h, s) <= h.leaves[l].key;
    assert Pre(h, s)[h.nodes[a].depth] == i;
  }

  lemma ChildrenOrdered(h: Heap, a: nat, l: nat, m: nat)
    requires Shape(h) && Under(h, N(a), l) && Under(h, N(a), m)
    requires h.leaves[l].key[h.nodes[a].depth] < h.leaves[m].key[h.nodes[a].depth]
    ensures LeafVal(h, l) < LeafVal(h, m)
  {
    var d := h.nodes[a].depth;
    assert h.leaves[l].key[..d] == h.nodes[a].path == h.leaves[m].key[..d];
    ValDiverge(h.leaves[l].key, h.leaves[m].key, d);
  }

  lemma ChildDeeper(h: Heap, a: nat, i: Nib)
    requires Shape(h) && Live(h, N(a)) && h.nodes[a].child[i] != Null
    ensures Live(h, h.nodes[a].child[i]) && |h.nodes[a].path| < |Loc(h, h.nodes[a].child[i])| <= 16
  {
    var s := ChildSlot(a, i);
    assert LiveSlot(h, s) && Get(h, s) == h.nodes[a].child[i];
  }

  /** Every link of the tree leads to a leaf. */
  lemma {:induction false} LeafBelow(h: Heap, p: Ptr) returns (l: nat)
    requires TreeOk(h) && Live(h, p)
    ensures Under(h, p, l)
    decreases 16 - |Loc(h, p)|
  {
    if p.L? {
      l := p.a;
    } else {
      assert TwoKids(h.nodes[p.a]);
      var i: Nib, j: Nib :| i < j && h.nodes[p.a].child[i] != Null && h.nodes[p.a].child[j] != Null;
      ChildDeeper(h, p.a, i);
      l := LeafBelow(h, h.nodes[p.a].child[i]);
      OutOfChild(h, p.a, i, l);
    }
  }

  lemma OnlyLeaf(h: Heap, a: nat, l: nat)
    requires Shape(h) && Under(h, L(a), l)
    ensures l == a
  {
    assert Live(h, L(l)) && Loc(h, L(l)) == Loc(h, L(a));
  }

  // ---------- greatest and least leaf ----------

  ghost predicate Greatest(h: Heap, p: Ptr, l: nat) {
    Under(h, p, l) && forall x | Under(h, p, x) :: LeafVal(h, x) <= LeafVal(h, l)
  }

  ghost predicate Least(h: Heap, p: Ptr, l: nat) {
    Under(h, p, l) && forall x | Under(h, p, x) :: LeafVal(h, l) <= LeafVal(h, x)
  }

  lemma LeafExtreme(h: Heap, a: nat)
    requires Shape(h) && Live(h, L(a))
    ensures Greatest(h, L(a), a) && Least(h, L(a), a)
  {
    forall x | Under(h, L(a), x) ensures x == a { OnlyLeaf(h, a, x); }
  }

  lemma GreatestUp(h: Heap, a: nat, i: Nib, l: nat)
    requires Shape(h) && Live(h, N(a)) && Greatest(h, h.nodes[a].child[i], l)
    requires forall j: Nib | j > i :: h.nodes[a].child[j] == Null
    ensures Greatest(h, N(a), l)
  {
    OutOfChild(h, a, i, l);
    forall x | Under(h, N(a), x) ensures LeafVal(h, x) <= LeafVal(h, l) {
      IntoChild(h, a, x);
      if h.leaves[x].key[h.nodes[a].depth] < i { ChildrenOrdered(h, a, x, l); }
    }
  }

  lemma LeastUp(h: Heap, a: nat, i: Nib, l: nat)
    requires Shape(h) && Live(h, N(a)) && Least(h, h.nodes[a].child[i], l)
    requires forall j: Nib | j < i :: h.nodes[a].child[j] == Null
    ensures Least(h, N(a), l)
  {
    OutOfChild(h, a, i, l);
    forall x | Under(h, N(a), x) ensures LeafVal(h, l) <= LeafVal(h, x) {
      IntoChild(h, a, x);
      if i < h.leaves[x].key[h.nodes[a].depth] { ChildrenOrdered(h, a, l, x); }
    }
  }

  /** The rightmost leaf below an inner node. */
  method FindPredecessor(h: Heap, start: nat) returns (r: Option<nat>)
    requires TreeOk(h) && start in h.ln && start in h.nodes
    ensures r.Some? && Greatest(h, N(start), r.value)
  {
    var n := start;
    while true
      invariant n in h.ln && n in h.nodes
      invariant forall l | Greatest(h, N(n), l) :: Greatest(h, N(start), l)
      decreases 16 - |h.nodes[n].path|
    {
      var nib := 15;
      while nib >= 0 && h.nodes[n].child[nib] == Null
        invariant -1 <= nib <= 15
        invariant forall j: Nib | j > nib :: h.nodes[n].child[j] == Null
      {
        nib := nib - 1;
      }
      assert nib >= 0 by { assert TwoKids(h.nodes[n]); }
      var c := h.nodes[n].child[nib];
      ChildDeeper(h, n, nib);
      forall l | Greatest(h, c, l) ensures Greatest(h, N(n), l) { GreatestUp(h, n, nib, l); }
      if c.L? {
        LeafExtreme(h, c.a);
        return Some(c.a);
      }
      n := c.a;
    }
  }

  /** The leftmost leaf below an inner node. */
  method FindSuccessor(h: Heap, start: nat) returns (r: Option<nat>)
    requires TreeOk(h) && start in h.ln && start in h.nodes
    ensures r.Some? && Least(h, N(start), r.value)
  {
    var n := start;
    while true
      invariant n in h.ln && n in h.nodes
      invariant forall l | Least(h, N(n), l) :: Least(h, N(start), l)
      decreases 16 - |h.nodes[n].path|
    {
      var nib := 0;
      while nib <= 15 && h.nodes[n].child[nib] == Null
        invariant 0 <= nib <= 16
        invariant forall j: Nib | j < nib :: h.nodes[n].child[j] == Null
      {
        nib := nib + 1;
      }
      assert nib <= 15 by { assert TwoKids(h.nodes[n]); }
      var c := h.nodes[n].child[nib];
      ChildDeeper(h, n, nib);
      forall l | Least(h, c, l) ensures Least(h, N(n), l) { LeastUp(h, n, nib, l); }
      if c.L? {
        LeafExtreme(h, c.a);
        return Some(c.a);
      }
      n := c.a;
    }
  }

  // ---------- at most, at least ----------

  /** `r` is the greatest leaf at or below `p` whose key does not exceed `key`. */
  ghost predicate Floor(h: Heap, p: Ptr, key: Key, r: Option<nat>) {
    match r
    case None => forall l | Under(h, p, l) :: LeafVal(h, l) > Val(key)
    case Some(l) => Under(h, p, l) && LeafVal(h, l) <= Val(key)
                    && forall x | Under(h, p, x) && LeafVal(h, x) <= Val(key) :: LeafVal(h, x) <= LeafVal(h, l)
  }

  /** `r` is the least leaf at or below `p` whose key is not below `key`. */
  ghost predicate Ceiling(h: Heap, p: Ptr, key: Key, r: Option<nat>) {
    match r
    case None => forall l | Under(h, p, l) :: LeafVal(h, l) < Val(key)
    case Some(l) => Under(h, p, l) && LeafVal(h, l) >= Val(key)
                    && forall x | Under(h, p, x) && LeafVal(h, x) >= Val(key) :: LeafVal(h, l) <= LeafVal(h, x)
  }

  /** A key outside a subtree lies to one side of all of it, and of the node's padded path. */
  lemma OutsideSubtree(h: Heap, a: nat, key: Key)
    requires Shape(h) && Live(h, N(a)) && !(h.nodes[a].path <= key)
    ensures Val(Pad(h.nodes[a].path)) != Val(key)
    ensures forall l | Under(h, N(a), l) ::
      (LeafVal(h, l) < Val(key) <==> Val(Pad(h.nodes[a].path)) < Val(key)) && LeafVal(h, l) != Val(key)
  {
    var path := h.nodes[a].path;
    var d := FirstDiff(key, path);
    OneSide(path, Pad(path), key, d);
    forall l | Under(h, N(a), l) ensures (LeafVal(h, l) < Val(key) <==> path[d] < key[d]) && LeafVal(h, l) != Val(key) {
      OneSide(path, h.leaves[l].key, key, d);
    }
  }

  lemma OneSide(path: seq<Nib>, x: Key, key: Key, d: nat)
    requires path <= x && d < |path| <= 16 && key[..d] == path[..d] && key[d] != path[d]
    ensures (Val(x) < Val(key) <==> path[d] < key[d]) && Val(x) != Val(key)
  {
    assert x[..d] == key[..d] && x[d] == path[d];
    if path[d] < key[d] { ValDiverge(x, key, d); } else { ValDiverge(key, x, d); }
  }

  /** A leaf that leaves the key at the node's own nibble lies on that side. */
  lemma BesideKey(h: Heap, a: nat, key: Key, l: nat)
    requires Shape(h) && Under(h, N(a), l) && h.nodes[a].path <= key
    ensures var d := h.nodes[a].depth;
      && (h.leaves[l].key[d] < key[d] ==> LeafVal(h, l) < Val(key))
      && (h.leaves[l].key[d] > key[d] ==> LeafVal(h, l) > Val(key))
  {
    var d, k := h.nodes[a].depth, h.leaves[l].key;
    assert k[..d] == h.nodes[a].path == key[..d];
    if k[d] < key[d] { ValDiverge(k, key, d); }
    if k[d] > key[d] { ValDiverge(key, k, d); }
  }

  /** What the child on the key's way finds is what the node finds. */
  lemma FloorUp(h: Heap, a: nat, key: Key, l: nat)
    requires Shape(h) && Live(h, N(a)) && h.nodes[a].path <= key
    requires Floor(h, h.nodes[a].child[key[h.nodes[a].depth]], key, Some(l))
    ensures Floor(h, N(a), key, Some(l))
  {
    var d := h.nodes[a].depth;
    OutOfChild(h, a, key[d], l);
    forall x | Under(h, N(a), x) && LeafVal(h, x) <= Val(key) ensures LeafVal(h, x) <= LeafVal(h, l) {
      IntoChild(h, a, x);
      BesideKey(h, a, key, x);
      if h.leaves[x].key[d] < key[d] { ChildrenOrdered(h, a, x, l); }
    }
  }

  lemma CeilingUp(h: Heap, a: nat, key: Key, l: nat)
    requires Shape(h) && Live(h, N(a)) && h.nodes[a].path <= key
    requires Ceiling(h, h.nodes[a].child[key[h.nodes[a].depth]], key, Some(l))
    ensures Ceiling(h, N(a), key, Some(l))
  {
    var d := h.nodes[a].depth;
    OutOfChild(h, a, key[d], l);
    forall x | Under(h, N(a), x) && LeafVal(h, x) >= Val(key) ensures LeafVal(h, l) <= LeafVal(h, x) {
      IntoChild(h, a, x);
      BesideKey(h, a, key, x);
      if h.leaves[x].key[d] > key[d] { ChildrenOrdered(h, a, l, x); }
    }
  }

  /** With nothing on the key's way, the answer is the greatest leaf of the nearest child to the left. */
  lemma FloorLeft(h: Heap, a: nat, key: Key, i: Nib, l: nat)
    requires Shape(h) && Live(h, N(a)) && h.nodes[a].path <= key && i < key[h.nodes[a].depth]
    requires Floor(h, h.nodes[a].child[key[h.nodes[a].depth]], key, None)
    requires forall j: Nib | i < j < key[h.nodes[a].depth] :: h.nodes[a].child[j] == Null
    requires Greatest(h, h.nodes[a].child[i], l)
    ensures Floor(h, N(a), key, Some(l))
  {
    var d := h.nodes[a].depth;
    OutOfChild(h, a, i, l);
    BesideKey(h, a, key, l);
    forall x | Under(h, N(a), x) && LeafVal(h, x) <= Val(key) ensures LeafVal(h, x) <= LeafVal(h, l) {
      IntoChild(h, a, x);
      BesideKey(h, a, key, x);
      if h.leaves[x].key[d] < i { ChildrenOrdered(h, a, x, l); }
    }
  }

  lemma CeilingRight(h: Heap, a: nat, key: Key, i: Nib, l: nat)
    requires Shape(h) && Live(h, N(a)) && h.nodes[a].path <= key && i > key[h.nodes[a].depth]
    requires Ceiling(h, h.nodes[a].child[key[h.nodes[a].depth]], key, None)
    requires forall j: Nib | key[h.nodes[a].depth] < j < i :: h.nodes[a].child[j] == Null
    requires Least(h, h.nodes[a].child[i], l)
    ensures Ceiling(h, N(a), key, Some(l))
  {
    var d := h.nodes[a].depth;
    OutOfChild(h, a, i, l);
    BesideKey(h, a, key, l);
    forall x | Under(h, N(a), x) && LeafVal(h, x) >= Val(key) ensures LeafVal(h, l) <= LeafVal(h, x) {
      IntoChild(h, a, x);
      BesideKey(h, a, key, x);
      if h.leaves[x].key[d] > i { ChildrenOrdered(h, a, l, x); }
    }
  }

  lemma FloorNone(h: Heap, a: nat, key: Key)
    requires Shape(h) && Live(h, N(a)) && h.nodes[a].path <= key
    requires Floor(h, h.nodes[a].child[key[h.nodes[a].depth]], key, None)
    requires forall j: Nib | j < key[h.nodes[a].depth] :: h.nodes[a].child[j] == Null
    ensures Floor(h, N(a), key, None)
  {
    forall x | Under(h, N(a), x) ensures LeafVal(h, x) > Val(key) {
      IntoChild(h, a, x);
      BesideKey(h, a, key, x);
    }
  }

  lemma CeilingNone(h: Heap, a: nat, key: Key)
    requires Shape(h) && Live(h, N(a)) && h.nodes[a].path <= key
    requires Ceiling(h, h.nodes[a].child[key[h.nodes[a].depth]], key, None)
    requires forall j: Nib | j > key[h.nodes[a].depth] :: h.nodes[a].child[j] == Null
    ensures Ceiling(h, N(a), key, None)
  {
    forall x | Under(h, N(a), x) ensures LeafVal(h, x) < Val(key) {
      IntoChild(h, a, x);
      BesideKey(h, a, key, x);
    }
  }

  ghost function Height(h: Heap, p: Ptr): nat
    requires Shape(h)
  {
    if Live(h, p) && |Loc(h, p)| <= 16 then 17 - |Loc(h, p)| else 0
  }

  method FindLe(h: Heap, p: Ptr, key: Key) returns (r: Option<nat>)
    requires TreeOk(h) && (p == Null || Live(h, p))
    ensures Floor(h, p, key, r)
    decreases Height(h, p)
  {
    if p == Null { return None; }
    if p.L? {
      LeafExtreme(h, p.a);
      return if Val(h.leaves[p.a].key) <= Val(key) then Some(p.a) else None;
    }
    var n := h.nodes[p.a];
    if !(n.path <= key) {
      OutsideSubtree(h, p.a, key);
      if Val(Pad(n.path)) < Val(key) {
        r := FindPredecessor(h, p.a);
        return;
      }
      return None;
    }
    var nib: nat := key[n.depth];
    if n.child[nib] != Null { ChildDeeper(h, p.a, nib); }
    r := FindLe(h, n.child[nib], key);
    if r.Some? {
      FloorUp(h, p.a, key, r.value);
      return;
    }
    while nib > 0
      invariant nib <= key[n.depth]
      invariant forall j: Nib | nib <= j < key[n.depth] :: n.child[j] == Null
    {
      var m := n.child[nib - 1];
      if m != Null {
        ChildDeeper(h, p.a, nib - 1);
        if m.L? {
          r := Some(m.a);
          LeafExtreme(h, m.a);
        } else {
          r := FindPredecessor(h, m.a);
        }
        FloorLeft(h, p.a, key, nib - 1, r.value);
        return;
      }
      nib := nib - 1;
    }
    FloorNone(h, p.a, key);
    return None;
  }

  method FindGe(h: Heap, p: Ptr, key: Key) returns (r: Option<nat>)
    requires TreeOk(h) && (p == Null || Live(h, p))
    ensures Ceiling(h, p, key, r)
    decreases Height(h, p)
  {
    if p == Null { return None; }
    if p.L? {
      LeafExtreme(h, p.a);
      return if Val(h.leaves[p.a].key) >= Val(key) then Some(p.a) else None;
    }
    var n := h.nodes[p.a];
    if !(n.path <= key) {
      OutsideSubtree(h, p.a, key);
      if Val(Pad(n.path)) > Val(key) {
        r := FindSuccessor(h, p.a);
        return;
      }
      return None;
    }
    var nib: nat := key[n.depth];
    if n.child[nib] != Null { ChildDeeper(h, p.a, nib); }
    r := FindGe(h, n.child[nib], key);
    if r.Some? {
      CeilingUp(h, p.a, key, r.value);
      return;
    }
    while nib < 15
      invariant key[n.depth] <= nib <= 15
      invariant forall j: Nib | key[n.depth] < j <= nib :: n.child[j] == Null
    {
      var m := n.child[nib + 1];
      if m != Null {
        ChildDeeper(h, p.a, nib + 1);
        if m.L? {
          r := Some(m.a);
          LeafExtreme(h, m.a);
        } else {
          r := FindSuccessor(h, m.a);
        }
        CeilingRight(h, p.a, key, nib + 1, r.value);
        return;
      }
      nib := nib + 1;
    }
    CeilingNone(h, p.a, key);
    return None;
  }

  // ---------- critnib_find ----------

  /** FIND_L, FIND_LE, FIND_EQ, FIND_GE and FIND_G. */
  datatype Dir = Below | AtMost | Exactly | AtLeast | Above

  /** Leaf `l`'s key relates to `key` as the direction asks. */
  ghost predicate Fits(dir: Dir, k: nat, key: nat) {
    match dir
    case Below => k < key
    case AtMost => k <= key
    case Exactly => k == key
    case AtLeast => k >= key
    case Above => k > key
  }

  /** `k` is at least as near to what the direction asks for as `x`. */
  ghost predicate Nearer(dir: Dir, k: nat, x: nat) {
    match dir
    case Below => k >= x
    case AtMost => k >= x
    case Exactly => k == x
    case AtLeast => k <= x
    case Above => k <= x
  }

  /** The answer `critnib_find` owes to a map. */
  ghost predicate Answers(m: map<Key, nat>, dir: Dir, key: Key, r: Option<(Key, nat)>) {
    match r
    case None => forall k | k in m :: !Fits(dir, Val(k), Val(key))
    case Some((k, v)) =>
      && k in m && m[k] == v && Fits(dir, Val(k), Val(key))
      && forall x | x in m && Fits(dir, Val(x), Val(key)) :: Nearer(dir, Val(k), Val(x))
  }

  /** A search in the whole tree is a search in the map. */
  lemma UnderRoot(h: Heap, m: map<Key, nat>)
    requires Shape(h) && Represents(h, m)
    ensures forall k | k in m :: exists l :: Under(h, h.root, l) && h.leaves[l].key == k
    ensures forall l | Under(h, h.root, l) :: h.leaves[l].key in m && m[h.leaves[l].key] == h.leaves[l].value
  {
    forall k | k in m ensures exists l :: Under(h, h.root, l) && h.leaves[l].key == k {
      var l :| l in h.ll && l in h.leaves && h.leaves[l].key == k;
      assert Live(h, L(l)) && LiveSlot(h, RootSlot) && Get(h, RootSlot) == h.root;
      assert Covers(h, h.root, Loc(h, L(l)));
      assert Under(h, h.root, l);
    }
  }

  lemma AnswerFrom(h: Heap, m: map<Key, nat>, dir: Dir, key: Key, near: Key, r: Option<nat>)
    requires Shape(h) && Represents(h, m)
    requires match dir
             case Below => Val(near) + 1 == Val(key) && Floor(h, h.root, near, r)
             case AtMost => near == key && Floor(h, h.root, near, r)
             case Exactly => false
             case AtLeast => near == key && Ceiling(h, h.root, near, r)
             case Above => Val(near) == Val(key) + 1 && Ceiling(h, h.root, near, r)
    ensures r.Some? ==> r.value in h.leaves
    ensures Answers(m, dir, key, if r.None? then None else Some((h.leaves[r.value].key, h.leaves[r.value].value)))
  {
    UnderRoot(h, m);
  }

  /** The walk of an exact search. */
  method Walk(h: Heap, ghost m: map<Key, nat>, key: Key) returns (r: Option<nat>)
    requires TreeOk(h) && Represents(h, m)
    ensures if key in m then r.Some? && r.value in h.leaves && h.leaves[r.value] == Leaf(key, m[key]) else r.None?
  {
    var n := h.root;
    ghost var s := RootSlot;
    assert LiveSlot(h, s);
    while n.N?
      invariant LiveSlot(h, s) && n == Get(h, s) && (n != Null ==> Live(h, n))
      invariant Pre(h, s) <= key || key !in m
      decreases Height(h, n)
    {
      var node := h.nodes[n.a];
      if Pre(h, s) <= key && !(node.path <= key) { AbsentAt(h, m, s, key); }
      if node.path <= key { NodeShorter(h, n.a, key); }
      s := ChildSlot(n.a, key[node.depth]);
      n := node.child[key[node.depth]];
      if n != Null { ChildDeeper(h, s.a, s.i); }
    }
    if Pre(h, s) <= key && (n == Null || h.leaves[n.a].key != key) { AbsentAt(h, m, s, key); }
    r := if n.L? && h.leaves[n.a].key == key then Some(n.a) else None;
  }

  /** The parametrised query, on a tree that holds the map `m`. */
  method Find(h: Heap, ghost m: map<Key, nat>, key: Key, dir: Dir) returns (r: Option<(Key, nat)>)
    requires TreeOk(h) && Represents(h, m)
    ensures Answers(m, dir, key, r)
  {
    ValBound(key);
    if dir == Below && Val(key) == 0 { return None; }
    if dir == Above && Val(key) == Pow16(16) - 1 {
      forall k | k in m ensures !Fits(dir, Val(k), Val(key)) { ValBound(k); }
      return None;
    }
    var near := if dir == Below then KeyOf(Val(key) - 1) else if dir == Above then KeyOf(Val(key) + 1) else key;
    assert LiveSlot(h, RootSlot) && Get(h, RootSlot) == h.root;
    var k: Option<nat>;
    if dir == Below || dir == AtMost {
      k := FindLe(h, h.root, near);
      AnswerFrom(h, m, dir, key, near, k);
    } else if dir == AtLeast || dir == Above {
      k := FindGe(h, h.root, near);
      AnswerFrom(h, m, dir, key, near, k);
    } else {
      k := Walk(h, m, key);
      forall x | x in m && Val(x) == Val(key) ensures x == key { ValInjective(x, key); }
    }
    r := if k.None? then None else Some((h.leaves[k.value].key, h.leaves[k.value].value));
  }
}
