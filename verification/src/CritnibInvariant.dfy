/** The invariant of the concurrent critnib, clause by clause. */
module CritnibInvariant {
  import opened CritnibHeap
  import opened CritnibMachine

  // ---------- what history says ----------

  ghost predicate WasAbsent(hist: seq<Contents>, from: nat, key: Key) {
    exists j :: from <= j < |hist| && key !in hist[j]
  }

  /** `key` looked up to `v` at some moment since `from`; an absent key looks up to NULL. */
  ghost predicate WasValue(hist: seq<Contents>, from: nat, key: Key, v: nat) {
    exists j :: from <= j < |hist| && Lookup(hist[j], key) == v
  }

  // ---------- the tree, its memory and the map ----------

  ghost predicate TreeOk(s: Shared) {
    |s.hist| > 0 && Shape(s.h) && Represents(s.h, Last(s.hist))
  }

  /** Compression may be broken only at the node whose child is being removed. */
  ghost predicate CompressedBut(s: Shared, w: Writer) {
    forall a | a in s.h.ln && a in s.h.nodes && !((w.pc.RemCount? || w.pc.RemSkip?) && a == w.b) ::
      TwoKids(s.h.nodes[a])
  }

  /** No link anywhere leads outside allocated memory. */
  ghost predicate NoWildLinks(s: Shared) {
    && OkPtr(s.h, s.h.root) && OkPtr(s.h, s.poolN)
    && (forall a, i: Nib | a in s.h.nodes :: OkPtr(s.h, s.h.nodes[a].child[i]))
    && 0 !in s.h.leaves
  }

  // ---------- unlinked objects ----------

  ghost predicate Retired(s: Shared, p: Ptr) {
    (p.N? && p.a in s.retN) || (p.L? && p.a in s.retL)
  }

  ghost function RetOf(s: Shared, p: Ptr): Ret
    requires Retired(s, p)
  {
    if p.N? then s.retN[p.a] else s.retL[p.a]
  }

  /** A child of an unlinked node is still linked, or was unlinked by a later remove. */
  ghost predicate LaterThan(s: Shared, p: Ptr, z: Ret) {
    Live(s.h, p) || (Retired(s, p) && RetOf(s, p).r > z.r && RetOf(s, p).at >= z.at)
  }

  /**
    An unlinked node is frozen and above the nodes it leads to; where it does not lead on to a key of its
    own, that key has been absent since.
   */
  ghost predicate RetiredNodeOk(s: Shared, a: nat)
    requires a in s.retN
  {
    && a in s.h.nodes && a !in s.h.ln
    && var n, z := s.h.nodes[a], s.retN[a];
       && z.at < |s.hist| && z.r < s.count && |n.path| == n.depth
       && (forall i: Nib | n.child[i] != Null :: LaterThan(s, n.child[i], z))
       && (forall i: Nib :: OkPtr(s.h, n.child[i]))
       && (forall i: Nib | n.child[i].N? :: n.depth < s.h.nodes[n.child[i].a].depth)
       && (forall key: Key | n.path <= key &&
         (n.child[key[n.depth]] == Null || !(LocOf(s.h, n.child[key[n.depth]]) <= key)) ::
             WasAbsent(s.hist, z.at, key))
  }

  /** An unlinked leaf still holds the value that was current when it was unlinked. */
  ghost predicate RetiredLeafOk(s: Shared, a: nat)
    requires a in s.retL
  {
    && a in s.h.leaves && a !in s.h.ll
    && var l, z := s.h.leaves[a], s.retL[a];
       && z.at < |s.hist| && z.r < s.count && l.key in s.hist[z.at] && s.hist[z.at][l.key] == l.value
  }

  ghost predicate RetiredOk(s: Shared) {
    (forall a | a in s.retN :: RetiredNodeOk(s, a)) && (forall a | a in s.retL :: RetiredLeafOk(s, a))
  }

  // ---------- the reuse pools and objects in the lock holder's hands ----------

  ghost predicate HandsOk(s: Shared) {
    && (forall a | a in s.handN :: a in s.h.nodes && a !in s.h.ln && a !in s.retN && a !in s.freeN)
    && (forall a | a in s.handL :: a in s.h.leaves && a !in s.h.ll && a !in s.retL && a !in s.freeL)
  }

  ghost function NodeLink(free: seq<nat>, i: nat): Ptr {
    if i < |free| then N(free[i]) else Null
  }

  ghost function LeafLink(free: seq<nat>, i: nat): nat {
    if i < |free| then free[i] else 0
  }

  /** The pool is the list `free`, linked through its objects, none of which is part of the tree or waiting. */
  ghost predicate NodePoolOk(s: Shared) {
    && s.poolN == NodeLink(s.freeN, 0)
    && (forall i, j | 0 <= i < j < |s.freeN| :: s.freeN[i] != s.freeN[j])
    && (forall i | 0 <= i < |s.freeN| ::
          var a := s.freeN[i];
          a in s.h.nodes && a !in s.h.ln && a !in s.retN && s.h.nodes[a].child[0] == NodeLink(s.freeN, i + 1))
  }

  ghost predicate LeafPoolOk(s: Shared) {
    && s.poolL == LeafLink(s.freeL, 0)
    && (forall i, j | 0 <= i < j < |s.freeL| :: s.freeL[i] != s.freeL[j])
    && (forall i | 0 <= i < |s.freeL| ::
          var a := s.freeL[i];
          a in s.h.leaves && a !in s.h.ll && a !in s.retL && s.h.leaves[a].value == LeafLink(s.freeL, i + 1))
  }

  ghost predicate PoolsOk(s: Shared) {
    NodePoolOk(s) && LeafPoolOk(s)
  }

  // ---------- the grace period ----------

  /**
    How far the current remove, number `r`, has got with one of the two rings: the counter has
    been bumped and the object in its cell is `Due`; that object is in the pool and the cell is
    being emptied; the cell is empty; an object has been unlinked and is not in the cell yet.
    `Rest` is any other time.
   */
  datatype Phase = Rest | Due | Emptying | Empty | Out

  ghost function PhaseN(pc: Pc): Phase {
    match pc
    case RemFreeN1 => Due
    case RemFreeN2 => Emptying
    case RemFreeL1 => Emptying
    case RemFreeL2 => Emptying
    case RemClearN => Emptying
    case RemClearL => Empty
    case RemDescend => Empty
    case RemUnlink => Empty
    case RemCount => Empty
    case RemSkip => Empty
    case RemPendN => Out
    case _ => Rest
  }

  ghost function PhaseL(pc: Pc): Phase {
    match pc
    case RemFreeN1 => Due
    case RemFreeN2 => Due
    case RemFreeL1 => Due
    case RemFreeL2 => Emptying
    case RemClearN => Emptying
    case RemClearL => Emptying
    case RemDescend => Empty
    case RemUnlink => Empty
    case RemCount => Out
    case RemSkip => Out
    case RemPendN => Out
    case RemValue => Out
    case RemPendL => Out
    case _ => Rest
  }

  function Obj(node: bool, a: nat): Ptr {
    if node then N(a) else L(a)
  }

  function Cell(r: nat): nat {
    r % DELETED_LIFE
  }

  /** Every waiting object is in the cell of the remove that unlinked it, and `cur` will be. */
  ghost predicate Waiting(ret: map<nat, Ret>, ring: Ring, node: bool, ph: Phase, cur: nat) {
    forall a | a in ret && !(ph == Out && a == cur) :: ring[Cell(ret[a].r)] == Obj(node, a)
  }

  /** Every cell holds a waiting object of its own, except a cell that is being emptied. */
  ghost predicate Ringed(ret: map<nat, Ret>, ring: Ring, node: bool, r: nat, ph: Phase) {
    forall j | 0 <= j < DELETED_LIFE && ring[j] != Null && !(ph == Emptying && j == Cell(r)) ::
      (if node then ring[j].N? else ring[j].L?) && ring[j].a in ret && Cell(ret[ring[j].a].r) == j
  }

  /** Which removes may have objects waiting. */
  ghost predicate Window(ret: map<nat, Ret>, count: nat, r: nat, ph: Phase, cur: nat) {
    && (ph != Rest ==> count == r + 1)
    && (forall a | a in ret :: ret[a].r < count <= ret[a].r + DELETED_LIFE + (if ph == Due then 1 else 0))
    && (ph != Rest ==> forall a | a in ret && !(ph == Out && a == cur) :: ret[a].r < r)
    && (ph == Out ==> cur in ret && ret[cur].r == r)
  }

  /** The grace period, for one of the two rings. */
  ghost predicate Grace(ret: map<nat, Ret>, ring: Ring, node: bool, count: nat, r: nat, ph: Phase, cur: nat) {
    && Waiting(ret, ring, node, ph, cur) && Ringed(ret, ring, node, r, ph) && Window(ret, count, r, ph, cur)
    && (ph == Empty || ph == Out ==> ring[Cell(r)] == Null)
  }

  ghost predicate NodeGrace(s: Shared, w: Writer) {
    Grace(s.retN, s.pendN, true, s.count, w.r, PhaseN(w.pc), w.b)
  }

  ghost predicate LeafGrace(s: Shared, w: Writer) {
    Grace(s.retL, s.pendL, false, s.count, w.r, PhaseL(w.pc), w.k)
  }

  ghost predicate GraceOk(s: Shared, w: Writer) {
    NodeGrace(s, w) && LeafGrace(s, w)
  }

  /** No waiting node has waited for more than a full turn of the ring. */
  ghost predicate WindowOk(s: Shared) {
    forall a | a in s.retN :: s.count <= s.retN[a].r + DELETED_LIFE + 1
  }

  // ---------- the lock holder ----------

  /** The holder has come down the key's way to `slot`, which holds `n`. */
  ghost predicate AtSlot(s: Shared, w: Writer) {
    LiveSlot(s.h, w.slot) && Pre(s.h, w.slot) <= w.key && w.n == Get(s.h, w.slot)
  }

  ghost predicate LeafSet(s: Shared, w: Writer) {
    w.k in s.handL && w.k in s.h.leaves && s.h.leaves[w.k] == Leaf(w.key, w.v)
  }

  /** Leaf `b` of the tree has the key that is being inserted. */
  ghost predicate Found(s: Shared, w: Writer) {
    w.b in s.h.ll && w.b in s.h.leaves && s.h.leaves[w.b].key == w.key
  }

  ghost predicate AfterOk(s: Shared, w: Writer) {
    && (w.after == ToUpdate ==> w.update && Found(s, w))
    && (w.after == ToExist ==> !w.update && Found(s, w))
  }

  /** The insert has come to a link that its key must be split from. */
  ghost predicate AtSplit(s: Shared, w: Writer) {
    AtSlot(s, w) && LeafSet(s, w) && Live(s.h, w.n) && Split(s.h, w.key, w.n)
  }

  ghost predicate NodeInHand(s: Shared, w: Writer) {
    AtSplit(s, w) && w.b in s.handN && w.b in s.h.nodes
  }

  ghost predicate ClearedTo(n: Node, i: nat) {
    i <= 16 && forall j: Nib | j < i :: n.child[j] == Null
  }

  ghost predicate HasKid1(n: Node, x: Nib, k: nat) {
    n.child[x] == L(k) && forall j: Nib | j != x :: n.child[j] == Null
  }

  ghost predicate HasKids(n: Node, x: Nib, y: Nib, k: nat, p: Ptr) {
    n.child[x] == L(k) && n.child[y] == p && forall j: Nib | j != x && j != y :: n.child[j] == Null
  }

  /** The new inner node as it is being filled in. */
  ghost predicate NodeFilled(s: Shared, w: Writer, depth: bool, path: bool) {
    && NodeInHand(s, w)
    && var n, d := s.h.nodes[w.b], SplitAt(s.h, w.key, w.n);
       && HasKids(n, w.key[d], LocOf(s.h, w.n)[d], w.k, w.n)
       && (depth ==> n.depth == d) && (path ==> n.path == w.key[..d])
  }

  /** A remove walks down without comparing paths; once it has strayed, its key is absent. */
  ghost predicate AtSlotLoose(s: Shared, w: Writer) {
    && LiveSlot(s.h, w.slot) && LiveSlot(s.h, w.up) && w.n == Get(s.h, w.slot)
    && (w.slot.ChildSlot? ==> Get(s.h, w.up) == N(w.slot.a))
    && (Pre(s.h, w.slot) <= w.key || w.key !in Last(s.hist))
  }

  ghost predicate AtLeaf(s: Shared, w: Writer) {
    AtSlotLoose(s, w) && w.n == L(w.k) && w.k in s.h.ll && w.k in s.h.leaves && s.h.leaves[w.k].key == w.key
  }

  ghost predicate OneKid(n: Node) {
    exists i: Nib :: n.child[i] != Null
  }

  /** `up` holds the link to node `b`. */
  ghost predicate AtParent(s: Shared, w: Writer) {
    LiveSlot(s.h, w.up) && Get(s.h, w.up) == N(w.b) && Live(s.h, N(w.b))
  }

  /** Leaf `k` has been unlinked by the current remove and the map no longer has its key. */
  ghost predicate LeafOut(s: Shared, w: Writer) {
    && w.k in s.h.leaves
    && w.key in w.base && s.h.leaves[w.k] == Leaf(w.key, w.base[w.key]) && Last(s.hist) == w.base - {w.key}
  }

  /** `critnib_insert` as a map operation. */
  ghost predicate InsertSpec(w: Writer, now: Contents) {
    match w.code
    case Ok => (w.update || w.key !in w.base) && now == w.base[w.key := w.v]
    case Exist => !w.update && w.key in w.base && now == w.base
    case NoMem => now == w.base
  }

  /** `critnib_remove` as a map operation. */
  ghost predicate RemoveSpec(w: Writer, now: Contents) {
    w.res == Lookup(w.base, w.key) && now == w.base - {w.key}
  }

  ghost predicate Unchanged(s: Shared, w: Writer) {
    w.base == Last(s.hist)
  }

  ghost predicate LocalOk(s: Shared, w: Writer) {
    match w.pc
    case Idle => true
    case InsAllocLeaf => Unchanged(s, w)
    case InsSetKey => Unchanged(s, w) && w.k in s.handL
    case InsSetValue => Unchanged(s, w) && w.k in s.handL && w.k in s.h.leaves && s.h.leaves[w.k].key == w.key
    case InsLoadRoot => Unchanged(s, w) && LeafSet(s, w)
    case InsDescend => Unchanged(s, w) && LeafSet(s, w) && AtSlot(s, w)
    case InsPutLeaf => Unchanged(s, w) && LeafSet(s, w) && AtSlot(s, w) && w.n == Null
    case InsFreeLeaf1 => Unchanged(s, w) && w.k in s.handL && AfterOk(s, w)
    case InsFreeLeaf2 => Unchanged(s, w) && w.k in s.handL && AfterOk(s, w) && w.k in s.h.leaves &&
      s.h.leaves[w.k].value == s.poolL
    case InsUpdate => Unchanged(s, w) && w.update && Found(s, w)
    case InsAllocNode => Unchanged(s, w) && AtSplit(s, w)
    case InsClear => Unchanged(s, w) && NodeInHand(s, w) && ClearedTo(s.h.nodes[w.b], w.i)
    case InsKid1 => Unchanged(s, w) && NodeInHand(s, w) && ClearedTo(s.h.nodes[w.b], 16)
    case InsKid2 => Unchanged(s, w) && NodeInHand(s, w) && HasKid1(s.h.nodes[w.b], w.key[SplitAt(s.h, w.key, w.n)], w.k)
    case InsDepth => Unchanged(s, w) && NodeFilled(s, w, false, false)
    case InsPath => Unchanged(s, w) && NodeFilled(s, w, true, false)
    case InsPublish => Unchanged(s, w) && NodeFilled(s, w, true, true)
    case InsDone => InsertSpec(w, Last(s.hist))
    case RemFreeN2 => Unchanged(s, w) && w.b in s.handN && w.b in s.h.nodes && s.h.nodes[w.b].child[0] == s.poolN
    case RemFreeL2 => Unchanged(s, w) && w.k in s.handL && w.k in s.h.leaves && s.h.leaves[w.k].value == s.poolL
    case RemDescend => Unchanged(s, w) && AtSlotLoose(s, w)
    case RemUnlink => Unchanged(s, w) && AtLeaf(s, w)
    case RemCount => LeafOut(s, w) && AtParent(s, w) && OneKid(s.h.nodes[w.b])
    case RemSkip => LeafOut(s, w) && AtParent(s, w) && w.i < 16 && OnlyKid(s.h.nodes[w.b], w.i)
    case RemPendN => LeafOut(s, w)
    case RemValue => LeafOut(s, w)
    case RemPendL => LeafOut(s, w) && w.res == w.base[w.key]
    case RemDone => RemoveSpec(w, Last(s.hist))
    case _ => Unchanged(s, w)
  }

  // ---------- readers ----------

  ghost predicate Stale(s: Shared, wc: nat) {
    wc + DELETED_LIFE <= s.count
  }

  /** The object is part of the tree, or was unlinked after the attempt began. */
  ghost predicate Held(s: Shared, p: Ptr, wc: nat, st: nat) {
    Live(s.h, p) || (Retired(s, p) && RetOf(s, p).r + 1 >= wc && RetOf(s, p).at >= st)
  }

  /** What a reader that is not too slow knows of the link in its hands. */
  ghost predicate Following(s: Shared, key: Key, wc: nat, st: nat, p: Ptr)
    requires OkPtr(s.h, p)
  {
    && (p != Null ==> Held(s, p, wc, st))
    && (p == Null || !(LocOf(s.h, p) <= key) ==> WasAbsent(s.hist, st, key))
  }

  ghost predicate Started(s: Shared, cs: nat, wc: nat, st: nat) {
    cs <= st < |s.hist| && wc <= s.count
  }

  ghost predicate ReaderOk(s: Shared, rd: Reader) {
    ReaderSafe(s, rd) &&
    match rd
    case RStart(key, cs) => cs < |s.hist|
    case RRoot(key, cs, wc, st) => Started(s, cs, wc, st)
    case RWalk(key, cs, wc, st, p) => Started(s, cs, wc, st) && (Stale(s, wc) || Following(s, key, wc, st, p))
    case RChild(key, cs, wc, st, a, d) =>
      Started(s, cs, wc, st) && (Stale(s, wc) || (Following(s, key, wc, st, N(a)) && d == s.h.nodes[a].depth))
    case RValue(key, cs, wc, st, a) =>
      Started(s, cs, wc, st) && (Stale(s, wc) || (Following(s, key, wc, st, L(a)) && s.h.leaves[a].key == key))
    case RCheck(key, cs, wc, st, res) => Started(s, cs, wc, st) && (Stale(s, wc) || WasValue(s.hist, st, key, res))
    case RDone(key, cs, res) => WasValue(s.hist, cs, key, res)
  }

  /** The clauses that do not look at the lock holder. */
  ghost predicate CoreOk(s: Shared) {
    TreeOk(s) && NoWildLinks(s) && RetiredOk(s) && PoolsOk(s) && HandsOk(s)
  }

  /** Everything that holds between two steps, apart from the readers. */
  ghost predicate MemoryOk(s: Shared, w: Writer) {
    CoreOk(s) && WindowOk(s) && CompressedBut(s, w) && GraceOk(s, w) && LocalOk(s, w)
  }

  ghost predicate Inv(y: Sys) {
    MemoryOk(y.s, y.w) && forall i | i in y.readers :: ReaderOk(y.s, y.readers[i])
  }

  // ---------- what a step of the lock holder may do to what readers hold ----------

  ghost predicate SameObject(s: Shared, t: Shared, p: Ptr)
    requires OkPtr(s.h, p)
  {
    OkPtr(t.h, p)
    && (p.N? ==> t.h.nodes[p.a].path == s.h.nodes[p.a].path && t.h.nodes[p.a].depth == s.h.nodes[p.a].depth)
    && (p.L? ==> t.h.leaves[p.a].key == s.h.leaves[p.a].key)
  }

  /** A linked object stays linked or is unlinked now; an unlinked one stays as it is until its grace period is over. */
  ghost predicate Evolves(s: Shared, t: Shared) {
    && s.hist <= t.hist && |t.hist| <= |s.hist| + 1 && s.count <= t.count
    && s.h.nodes.Keys <= t.h.nodes.Keys && s.h.leaves.Keys <= t.h.leaves.Keys
    && (forall p | Live(s.h, p) && OkPtr(s.h, p) ::
          SameObject(s, t, p) && (Live(t.h, p) ||
            (Retired(t, p) && RetOf(t, p).r + 1 >= s.count && RetOf(t, p).at + 1 >= |s.hist|)))
    && (forall p | Retired(s, p) && OkPtr(s.h, p) ::
          (Retired(t, p) && RetOf(t, p) == RetOf(s, p) && SameObject(s, t, p)) ||
            RetOf(s, p).r + DELETED_LIFE + 1 <= s.count)
  }
}
