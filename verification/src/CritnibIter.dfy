/**
  Iteration over a range of keys. The test that should skip a subtree below the range sets the
  path bits instead of the bits under them, so an inner root is skipped whenever the lower bound
  exceeds the root's path mask. Below that bound, and so for a lower bound of 0, iteration is exact.
 */
module CritnibIter {
  import opened CritnibHeap
  import opened CritnibOrder
  import opened CritnibSearch

  /** The path mask above depth `d`; a path with the mask ORed in is the mask. */
  function Mask(d: Nib): Key {
    seq(d, i => 15) + seq(16 - d, i => 0)
  }

  /** The range test as written skips the whole subtree. */
  ghost predicate Blind(h: Heap, p: Ptr, min: Key) {
    p.N? && p.a in h.nodes && Val(Mask(h.nodes[p.a].depth)) < Val(min)
  }

  ghost predicate InRange(h: Heap, p: Ptr, min: Key, max: Key, l: nat) {
    Under(h, p, l) && Val(min) <= LeafVal(h, l) <= Val(max)
  }

  ghost predicate Ascending(h: Heap, out: seq<nat>) {
    && (forall i | 0 <= i < |out| :: out[i] in h.leaves)
    && (forall i, j | 0 <= i < j < |out| :: LeafVal(h, out[i]) < LeafVal(h, out[j]))
  }

  ghost predicate Aborts(h: Heap, f: (Key, nat) -> bool, l: nat) {
    l in h.leaves && f(h.leaves[l].key, h.leaves[l].value)
  }

  ghost predicate Aborted(h: Heap, f: (Key, nat) -> bool, out: seq<nat>) {
    |out| > 0 && Aborts(h, f, out[|out| - 1])
  }

  /** `out` is the leaves of the range in ascending order, cut off after the first one the callback aborts on. */
  ghost predicate Visits(h: Heap, p: Ptr, min: Key, max: Key, f: (Key, nat) -> bool, out: seq<nat>) {
    && Ascending(h, out)
    && (forall l | l in out :: InRange(h, p, min, max, l))
    && (forall i | 0 <= i < |out| - 1 :: !Aborts(h, f, out[i]))
    && (forall l | InRange(h, p, min, max, l) ::
      l in out || (Aborted(h, f, out) && LeafVal(h, out[|out| - 1]) < LeafVal(h, l)))
  }

  /** A subtree that ends the iteration without an abort has passed the upper bound. */
  ghost predicate Passed(h: Heap, p: Ptr, max: Key) {
    exists l :: Under(h, p, l) && LeafVal(h, l) > Val(max)
  }

  lemma {:induction false} MaskGrows(d: Nib, e: Nib)
    requires d <= e
    ensures Val(Mask(d)) <= Val(Mask(e))
  {
    if d < e {
      assert Mask(d)[..d] == Mask(e)[..d] && Mask(d)[d] == 0 && Mask(e)[d] == 15;
      ValDiverge(Mask(d), Mask(e), d);
    }
  }

  /** No leaf is below its node's padded path. */
  lemma PadIsLeast(h: Heap, a: nat, l: nat)
    requires Shape(h) && Under(h, N(a), l)
    ensures Val(Pad(h.nodes[a].path)) <= LeafVal(h, l)
  {
    var path, key := h.nodes[a].path, h.leaves[l].key;
    if Pad(path) != key {
      var d := FirstDiff(key, Pad(path));
      assert key[..|path|] == path;
      assert d >= |path| && Pad(path)[d] == 0;
      ValDiverge(Pad(path), key, d);
    }
  }

  /** The leaves of the first `i` children of node `a` have been dealt with. */
  ghost predicate VisitsTo(h: Heap, a: nat, i: nat, min: Key, max: Key, f: (Key, nat) -> bool, out: seq<nat>)
    requires Live(h, N(a))
  {
    && Ascending(h, out)
    && (forall l | l in out :: InRange(h, N(a), min, max, l) && h.leaves[l].key[h.nodes[a].depth] < i)
    && (forall k | 0 <= k < |out| :: !Aborts(h, f, out[k]))
    && (forall l | InRange(h, N(a), min, max, l) && h.leaves[l].key[h.nodes[a].depth] < i :: l in out)
  }

  lemma Append(h: Heap, a: nat, i: Nib, min: Key, max: Key, f: (Key, nat) -> bool, out: seq<nat>, sub: seq<nat>)
    requires Shape(h) && Live(h, N(a)) && VisitsTo(h, a, i, min, max, f, out)
    requires h.nodes[a].child[i] != Null && Visits(h, h.nodes[a].child[i], min, max, f, sub)
    ensures Ascending(h, out + sub)
    ensures forall l | l in out + sub :: InRange(h, N(a), min, max, l) && h.leaves[l].key[h.nodes[a].depth] <= i
    ensures forall k | 0 <= k < |out + sub| - 1 :: !Aborts(h, f, (out + sub)[k])
    ensures Aborted(h, f, out + sub) <==> Aborted(h, f, sub)
  {
    var c := h.nodes[a].child[i];
    forall l | l in sub ensures InRange(h, N(a), min, max, l) && h.leaves[l].key[h.nodes[a].depth] == i {
      OutOfChild(h, a, i, l);
    }
    forall x, y | 0 <= x < y < |out + sub| ensures LeafVal(h, (out + sub)[x]) < LeafVal(h, (out + sub)[y]) {
      if x < |out| <= y {
        assert (out + sub)[x] in out && (out + sub)[y] in sub;
        ChildrenOrdered(h, a, (out + sub)[x], (out + sub)[y]);
      }
    }
  }

  lemma NextChild(h: Heap, a: nat, i: Nib, min: Key, max: Key, f: (Key, nat) -> bool, out: seq<nat>, sub: seq<nat>)
    requires Shape(h) && Live(h, N(a)) && VisitsTo(h, a, i, min, max, f, out)
    requires h.nodes[a].child[i] != Null && Visits(h, h.nodes[a].child[i], min, max, f, sub) && !Aborted(h, f, sub)
    ensures VisitsTo(h, a, i + 1, min, max, f, out + sub)
  {
    Append(h, a, i, min, max, f, out, sub);
    forall l | InRange(h, N(a), min, max, l) && h.leaves[l].key[h.nodes[a].depth] < i + 1 ensures l in out + sub {
      if h.leaves[l].key[h.nodes[a].depth] == i {
        IntoChild(h, a, l);
        assert InRange(h, h.nodes[a].child[i], min, max, l);
      }
    }
  }

  lemma EmptyChild(h: Heap, a: nat, i: Nib, min: Key, max: Key, f: (Key, nat) -> bool, out: seq<nat>)
    requires Shape(h) && Live(h, N(a)) && VisitsTo(h, a, i, min, max, f, out) && h.nodes[a].child[i] == Null
    ensures VisitsTo(h, a, i + 1, min, max, f, out)
  {
    forall l | InRange(h, N(a), min, max, l) ensures h.leaves[l].key[h.nodes[a].depth] != i {
      IntoChild(h, a, l);
    }
  }

  /** A child that stops the iteration ends it for its node. */
  lemma StopsAtChild(h: Heap, a: nat, i: Nib, min: Key, max: Key, f: (Key, nat) -> bool, out: seq<nat>, sub: seq<nat>)
    requires Shape(h) && Live(h, N(a)) && VisitsTo(h, a, i, min, max, f, out)
    requires h.nodes[a].child[i] != Null && Visits(h, h.nodes[a].child[i], min, max, f, sub)
    requires Aborted(h, f, sub) || Passed(h, h.nodes[a].child[i], max)
    ensures Visits(h, N(a), min, max, f, out + sub)
    ensures Aborted(h, f, out + sub) || Passed(h, N(a), max)
  {
    Append(h, a, i, min, max, f, out, sub);
    var d := h.nodes[a].depth;
    var beyond: nat;
    if Aborted(h, f, sub) {
      beyond := sub[|sub| - 1];
    } else {
      beyond :| Under(h, h.nodes[a].child[i], beyond) && LeafVal(h, beyond) > Val(max);
    }
    OutOfChild(h, a, i, beyond);
    forall l | InRange(h, N(a), min, max, l) && l !in out + sub
      ensures Aborted(h, f, out + sub) && LeafVal(h, (out + sub)[|out + sub| - 1]) < LeafVal(h, l)
    {
      IntoChild(h, a, l);
      if h.leaves[l].key[d] > i { ChildrenOrdered(h, a, beyond, l); }
      assert h.leaves[l].key[d] == i ==> InRange(h, h.nodes[a].child[i], min, max, l);
    }
  }

  /** `iter`: visits a subtree and says whether the iteration is over. */
  method Iter(h: Heap, p: Ptr, min: Key, max: Key, f: (Key, nat) -> bool) returns (out: seq<nat>, stop: bool)
    requires TreeOk(h) && Live(h, p)
    ensures Blind(h, p, min) ==> out == []
    ensures !Blind(h, p, min) ==> Visits(h, p, min, max, f, out)
    ensures !Blind(h, p, min) && stop ==> Aborted(h, f, out) || Passed(h, p, max)
    ensures !stop ==> !Aborted(h, f, out)
    decreases Height(h, p)
  {
    if p.L? {
      forall l | Under(h, p, l) ensures l == p.a { OnlyLeaf(h, p.a, l); }
      var leaf := h.leaves[p.a];
      if Val(min) <= Val(leaf.key) <= Val(max) {
        return [p.a], f(leaf.key, leaf.value);
      }
      return [], false;
    }
    var n := h.nodes[p.a];
    if Val(Pad(n.path)) > Val(max) {
      forall l | Under(h, p, l) ensures LeafVal(h, l) > Val(max) { PadIsLeast(h, p.a, l); }
      ghost var l := LeafBelow(h, p);
      return [], true;
    }
    if Val(Mask(n.depth)) < Val(min) {
      return [], false;
    }
    out := [];
    var i := 0;
    while i < 16
      invariant i <= 16 && VisitsTo(h, p.a, i, min, max, f, out)
    {
      var m := n.child[i];
      if m != Null {
        ChildDeeper(h, p.a, i);
        assert m.N? ==> Live(h, m) && |h.nodes[m.a].path| == h.nodes[m.a].depth;
        if m.N? { MaskGrows(n.depth, h.nodes[m.a].depth); }
        var sub, done := Iter(h, m, min, max, f);
        if done {
          StopsAtChild(h, p.a, i, min, max, f, out, sub);
          return out + sub, true;
        }
        NextChild(h, p.a, i, min, max, f, out, sub);
        out := out + sub;
      } else {
        EmptyChild(h, p.a, i, min, max, f, out);
      }
      i := i + 1;
    }
    return out, false;
  }

  // ---------- critnib_iter, over the map ----------

  /** `d` is the length of the longest prefix that all keys share, and they do part there. */
  ghost predicate PartAt(m: map<Key, nat>, d: Nib) {
    && (forall x, y | x in m && y in m :: x[..d] == y[..d])
    && exists x, y :: x in m && y in m && x[d] != y[d]
  }

  /** The lower bound is one for which the range test skips everything. */
  ghost predicate TooHigh(m: map<Key, nat>, min: Key) {
    exists d: Nib :: PartAt(m, d) && Val(Mask(d)) < Val(min)
  }

  ghost predicate KeyInRange(m: map<Key, nat>, min: Key, max: Key, k: Key) {
    k in m && Val(min) <= Val(k) <= Val(max)
  }

  /** The calls made are for entries of the range, ascending, and no call but the last aborts. */
  ghost predicate InOrder(m: map<Key, nat>, min: Key, max: Key, f: (Key, nat) -> bool, calls: seq<(Key, nat)>) {
    && (forall i | 0 <= i < |calls| :: KeyInRange(m, min, max, calls[i].0) && m[calls[i].0] == calls[i].1)
    && (forall i, j | 0 <= i < j < |calls| :: Val(calls[i].0) < Val(calls[j].0))
    && (forall i | 0 <= i < |calls| - 1 :: !f(calls[i].0, calls[i].1))
  }

  /** The entry of `k` is among the calls, or comes after a last call that aborts. */
  ghost predicate CalledOrAfter(f: (Key, nat) -> bool, calls: seq<(Key, nat)>, k: Key, v: nat) {
    || (k, v) in calls
    || (|calls| > 0 && f(calls[|calls| - 1].0, calls[|calls| - 1].1) && Val(calls[|calls| - 1].0) < Val(k))
  }

  /** The calls made: the entries of the range in ascending order, up to the first on which the callback aborts. */
  ghost predicate Lists(m: map<Key, nat>, min: Key, max: Key, f: (Key, nat) -> bool, calls: seq<(Key, nat)>) {
    InOrder(m, min, max, f, calls) && forall k: Key | KeyInRange(m, min, max, k) :: CalledOrAfter(f, calls, k, m[k])
  }

  lemma RootParts(h: Heap, m: map<Key, nat>)
    requires TreeOk(h) && Represents(h, m) && h.root.N?
    ensures Live(h, h.root) && PartAt(m, h.nodes[h.root.a].depth)
  {
    var a := h.root.a;
    assert LiveSlot(h, RootSlot) && Get(h, RootSlot) == h.root;
    forall x | x in m ensures h.nodes[a].path <= x { var l := LeafOfKey(h, m, x); }
    assert TwoKids(h.nodes[a]);
    var i: Nib, j: Nib :| i < j && h.nodes[a].child[i] != Null && h.nodes[a].child[j] != Null;
    ChildDeeper(h, a, i);
    ChildDeeper(h, a, j);
    var x := LeafBelow(h, h.nodes[a].child[i]);
    var y := LeafBelow(h, h.nodes[a].child[j]);
    OutOfChild(h, a, i, x);
    OutOfChild(h, a, j, y);
    assert h.leaves[x].key in m && h.leaves[y].key in m;
    assert h.leaves[x].key[h.nodes[a].depth] != h.leaves[y].key[h.nodes[a].depth];
  }

  lemma PartsBefore(m: map<Key, nat>, d: Nib, e: Nib)
    requires PartAt(m, d) && d < e
    ensures !PartAt(m, e)
  {
    var x, y :| x in m && y in m && x[d] != y[d];
    assert x[..e][d] != y[..e][d];
  }

  lemma PartsOnce(m: map<Key, nat>, d: Nib, e: Nib)
    requires PartAt(m, d) && PartAt(m, e)
    ensures d == e
  {
    if d < e {
      PartsBefore(m, d, e);
    } else if e < d {
      PartsBefore(m, e, d);
    }
  }

  lemma OneKeyNeverParts(m: map<Key, nat>)
    requires forall x, y | x in m && y in m :: x == y
    ensures forall d: Nib :: !PartAt(m, d)
  {
  }

  function CallsOf(h: Heap, out: seq<nat>): (calls: seq<(Key, nat)>)
    requires forall l | l in out :: l in h.leaves
    ensures |calls| == |out| && forall i | 0 <= i < |out| :: calls[i] == (h.leaves[out[i]].key, h.leaves[out[i]].value)
  {
    seq(|out|, i requires 0 <= i < |out| => (h.leaves[out[i]].key, h.leaves[out[i]].value))
  }

  lemma LeafOfKey(h: Heap, m: map<Key, nat>, k: Key) returns (l: nat)
    requires Shape(h) && Represents(h, m) && k in m
    ensures Under(h, h.root, l) && h.leaves[l] == Leaf(k, m[k])
  {
    UnderRoot(h, m);
    l :| Under(h, h.root, l) && h.leaves[l].key == k;
  }

  lemma RangeListed(h: Heap, m: map<Key, nat>, min: Key, max: Key, f: (Key, nat) -> bool, out: seq<nat>, k: Key)
    requires Shape(h) && Represents(h, m) && Visits(h, h.root, min, max, f, out) && KeyInRange(m, min, max, k)
    ensures CalledOrAfter(f, CallsOf(h, out), k, m[k])
  {
    var calls := CallsOf(h, out);
    var l := LeafOfKey(h, m, k);
    assert InRange(h, h.root, min, max, l);
    if l in out {
      var i :| 0 <= i < |out| && out[i] == l;
      assert calls[i] == (k, m[k]);
    }
  }

  lemma CallsInOrder(h: Heap, m: map<Key, nat>, min: Key, max: Key, f: (Key, nat) -> bool, out: seq<nat>)
    requires Represents(h, m) && Visits(h, h.root, min, max, f, out)
    ensures InOrder(m, min, max, f, CallsOf(h, out))
  {
    forall i | 0 <= i < |out| ensures InRange(h, h.root, min, max, out[i]) {
      assert out[i] in out;
    }
  }

  lemma VisitsLists(h: Heap, m: map<Key, nat>, min: Key, max: Key, f: (Key, nat) -> bool, out: seq<nat>)
    requires Shape(h) && Represents(h, m) && Visits(h, h.root, min, max, f, out)
    ensures Lists(m, min, max, f, CallsOf(h, out))
  {
    CallsInOrder(h, m, min, max, f, out);
    forall k: Key | KeyInRange(m, min, max, k) ensures CalledOrAfter(f, CallsOf(h, out), k, m[k]) {
      RangeListed(h, m, min, max, f, out, k);
    }
  }

  /**
    `critnib_iter`. The callback sees exactly the range, in order and until it aborts, if and only
    if the lower bound is not too high for the keys stored or the range is empty anyway.
   */
  method Iterate(h: Heap, ghost m: map<Key, nat>, min: Key, max: Key, f: (Key, nat) -> bool)
      returns (calls: seq<(Key, nat)>)
    requires TreeOk(h) && Represents(h, m)
    ensures Lists(m, min, max, f, calls) <==> (TooHigh(m, min) ==> forall k: Key :: !KeyInRange(m, min, max, k))
    ensures TooHigh(m, min) ==> calls == []
  {
    UnderRoot(h, m);
    if h.root == Null { return []; }
    assert LiveSlot(h, RootSlot) && Get(h, RootSlot) == h.root;
    var out, stop := Iter(h, h.root, min, max, f);
    if h.root.N? {
      RootParts(h, m);
      forall d: Nib | PartAt(m, d) ensures d == h.nodes[h.root.a].depth { PartsOnce(m, d, h.nodes[h.root.a].depth); }
      assert Blind(h, h.root, min) <==> TooHigh(m, min);
    } else {
      forall x, y | x in m && y in m ensures x == y {
        var k := LeafOfKey(h, m, x);
        var l := LeafOfKey(h, m, y);
        OnlyLeaf(h, h.root.a, k);
        OnlyLeaf(h, h.root.a, l);
      }
      OneKeyNeverParts(m);
    }
    calls := CallsOf(h, out);
    if !Blind(h, h.root, min) {
      VisitsLists(h, m, min, max, f, out);
    }
  }

  /** A lower bound of zero is never too high. */
  lemma FromZero(m: map<Key, nat>, min: Key)
    requires Val(min) == 0
    ensures !TooHigh(m, min)
  {
  }

  /**
    A tree of one node and two leaves whose keys differ in the top nibble, and a lower bound of one: the
    second key is in range, and nothing is visited.
   */
  method IterMissesKeys()
      returns (h: Heap, ghost m: map<Key, nat>, min: Key, key: Key, calls: seq<(Key, nat)>)
    ensures TreeOk(h) && Represents(h, m) && Val(min) == 1 && KeyInRange(m, min, key, key) && calls == []
  {
    var low: Key, high: Key := seq(16, i => 0), seq(16, i => if i == 0 then 1 else 0);
    min, key := seq(16, i => if i == 15 then 1 else 0), high;
    var kids: Kids := seq(16, i => if i == 0 then L(1) else if i == 1 then L(2) else Null);
    h := Heap(N(3), map[3 := Node(kids, 0, [])], map[1 := Leaf(low, 1), 2 := Leaf(high, 2)], {3}, {1, 2});
    m := map[low := 1, high := 2];
    assert low[0] == 0 && high[0] == 1;
    TwoLeaves(h, low, high);
    OneAboveMask(min);
    assert PartAt(m, 0) && TooHigh(m, min);
    assert min[0] < high[0] && min[..0] == high[..0];
    ValDiverge(min, high, 0);
    calls := Iterate(h, m, min, key, (k, v) => false);
  }

  lemma OneAboveMask(min: Key)
    requires (forall i | 0 <= i < 15 :: min[i] == 0) && min[15] == 1
    ensures Val(Mask(0)) < Val(min) && Val(min) == 1
  {
    assert Mask(0)[..15] == min[..15] && Mask(0)[15] < min[15];
    ValDiverge(Mask(0), min, 15);
    ZeroVal(min[..15]);
  }

  lemma {:induction false} ZeroVal(k: seq<Nib>)
    requires forall i | 0 <= i < |k| :: k[i] == 0
    ensures Val(k) == 0
  {
    if k != [] { ZeroVal(k[..|k| - 1]); }
  }

  /** One node with two leaves is a tree. */
  lemma TwoLeaves(h: Heap, low: Key, high: Key)
    requires low[0] == 0 && high[0] == 1 && h.root == N(3) && h.ln == {3} && h.ll == {1, 2}
    requires h.nodes.Keys == {3} && h.nodes[3].depth == 0 && h.nodes[3].path == []
    requires forall i: Nib :: h.nodes[3].child[i] == if i == 0 then L(1) else if i == 1 then L(2) else Null
    requires h.leaves == map[1 := Leaf(low, 1), 2 := Leaf(high, 2)]
    ensures TreeOk(h) && Represents(h, map[low := 1, high := 2])
  {
    forall p | Live(h, p) ensures p == N(3) || p == L(1) || p == L(2) {}
    assert h.nodes[3].child[0] != Null && h.nodes[3].child[1] != Null;
  }
}
