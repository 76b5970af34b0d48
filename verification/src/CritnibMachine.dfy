/**
  The concurrent critnib: one lock holder that inserts or removes, and any number of
  lock-free `critnib_get` readers.

  Every store to memory that a reader may see, and every load by a reader, is one step;
  steps of the lock holder and of the readers interleave freely. Loads by the lock holder
  of memory that only lock holders write are merged with the step they feed. Atomics are
  sequentially consistent.

  `Shared` holds, after the real memory, bookkeeping that no step reads: the history of
  the stored map, the contents of the two reuse pools in order, the objects in the lock
  holder's hands, and for each unlinked object the number of the remove that unlinked it and the
  length of the history then.
 */
module CritnibMachine {
  import opened CritnibHeap

  const DELETED_LIFE: nat := 16

  type Ring = s: seq<Ptr> | |s| == 16 witness seq(16, i => Null)
  type Contents = map<Key, nat>

  /** An object unlinked by remove number `r` while `hist[at]` was current. */
  datatype Ret = Ret(r: nat, at: nat)

  datatype Shared = Shared(
    h: Heap,
    poolN: Ptr, poolL: nat,        // deleted_node, deleted_leaf; linked through child[0] and value
    pendN: Ring, pendL: Ring,      // pending_del_nodes, pending_del_leaves
    count: nat,                    // remove_count
    hist: seq<Contents>,
    freeN: seq<nat>, freeL: seq<nat>,
    handN: set<nat>, handL: set<nat>,
    retN: map<nat, Ret>, retL: map<nat, Ret>)

  datatype Code = Ok | Exist | NoMem
  datatype After = ToUpdate | ToExist | ToNoMem

  /** Where the lock holder is: the next store or test it will make. */
  datatype Pc =
    | Idle
    | InsAllocLeaf | InsSetKey | InsSetValue | InsLoadRoot | InsDescend | InsPutLeaf
    | InsFreeLeaf1 | InsFreeLeaf2 | InsUpdate
    | InsAllocNode | InsClear | InsKid1 | InsKid2 | InsDepth | InsPath | InsPublish
    | InsDone
    | RemStart | RemBump | RemFreeN1 | RemFreeN2 | RemFreeL1 | RemFreeL2 | RemClearN | RemClearL
    | RemDescend | RemUnlink | RemCount | RemSkip | RemPendN | RemValue | RemPendL
    | RemDone

  /**
    The lock holder and its registers. `key`, `v` and `update` are the arguments and `base` the
    map when it took the lock. `n` is the link read from `slot`, `up` the slot above that one,
    `k` a leaf, `b` a node, `i` a child number, `r` the number of the current remove.
   */
  datatype Writer = Writer(
    pc: Pc, key: Key, v: nat, update: bool, base: Contents,
    slot: Slot, n: Ptr, up: Slot, k: nat, b: nat, i: nat, r: nat,
    after: After, code: Code, res: nat)

  /**
    A reader inside `critnib_get`; the call began at history index `cs`, the current attempt at `st` with
    counter `wc`.
   */
  datatype Reader =
    | RStart(key: Key, cs: nat)
    | RRoot(key: Key, cs: nat, wc: nat, st: nat)
    | RWalk(key: Key, cs: nat, wc: nat, st: nat, p: Ptr)
    | RChild(key: Key, cs: nat, wc: nat, st: nat, a: nat, d: Nib)
    | RValue(key: Key, cs: nat, wc: nat, st: nat, a: nat)
    | RCheck(key: Key, cs: nat, wc: nat, st: nat, res: nat)
    | RDone(key: Key, cs: nat, res: nat)

  datatype Sys = Sys(s: Shared, w: Writer, readers: map<nat, Reader>)

  ghost function Last(hist: seq<Contents>): Contents {
    if hist == [] then map[] else hist[|hist| - 1]
  }

  function Lookup(m: Contents, key: Key): nat {
    if key in m then m[key] else 0
  }

  // ---------- stores ----------

  function SetNode(h: Heap, a: nat, n: Node): Heap {
    h.(nodes := h.nodes[a := n])
  }

  function SetKid(h: Heap, a: nat, i: Nib, p: Ptr): Heap
    requires a in h.nodes
  {
    SetNode(h, a, h.nodes[a].(child := h.nodes[a].child[i := p]))
  }

  function SetLeaf(h: Heap, a: nat, l: Leaf): Heap {
    h.(leaves := h.leaves[a := l])
  }

  /** Slab memory comes zero-filled, and a critnib gives nothing back to its slabs while in use. */
  function ZeroNode(): Node { Node(seq(16, i => Null), 0, []) }
  function ZeroLeaf(): Leaf { Leaf(seq(16, i => 0), 0) }

  /** Every link that memory holds leads to allocated memory. */
  ghost predicate OkPtr(h: Heap, p: Ptr) {
    match p
    case Null => true
    case N(a) => a in h.nodes
    case L(a) => a in h.leaves
  }

  /** The location string of an allocated object, part of the tree or not. */
  ghost function LocOf(h: Heap, p: Ptr): seq<Nib>
    requires p != Null && OkPtr(h, p)
  {
    if p.N? then h.nodes[p.a].path else h.leaves[p.a].key
  }

  function SlotOk(h: Heap, s: Slot): bool {
    s.ChildSlot? ==> s.a in h.nodes
  }

  /** What a slot of allocated memory holds. */
  function Read(h: Heap, s: Slot): Ptr
    requires SlotOk(h, s)
  {
    if s.RootSlot? then h.root else h.nodes[s.a].child[s.i]
  }

  function Write(h: Heap, s: Slot, p: Ptr): Heap
    requires SlotOk(h, s)
  {
    if s.RootSlot? then h.(root := p) else SetKid(h, s.a, s.i, p)
  }

  // ---------- the lock holder: insert ----------

  ghost predicate DoIdle(s: Shared, w: Writer, t: Shared, x: Writer) {
    t == s && (x.pc == InsAllocLeaf || x.pc == RemStart) && x.base == Last(s.hist)
  }

  ghost predicate DoAllocLeaf(s: Shared, w: Writer, t: Shared, x: Writer) {
    || (s.poolL == 0 && t == s && x == w.(pc := InsDone, code := NoMem))
    || (s.poolL == 0 && x.k > 0 && x.k !in s.h.leaves
        && t == s.(h := SetLeaf(s.h, x.k, ZeroLeaf()), handL := {x.k}) && x == w.(pc := InsSetKey, k := x.k))
    || (s.poolL != 0 && s.poolL in s.h.leaves && |s.freeL| > 0
        && t == s.(poolL := s.h.leaves[s.poolL].value, freeL := s.freeL[1..], handL := {s.poolL})
        && x == w.(pc := InsSetKey, k := s.poolL))
  }

  ghost predicate DoSetKey(s: Shared, w: Writer, t: Shared, x: Writer) {
    w.k in s.h.leaves && t == s.(h := SetLeaf(s.h, w.k, s.h.leaves[w.k].(key := w.key))) && x == w.(pc := InsSetValue)
  }

  ghost predicate DoSetValue(s: Shared, w: Writer, t: Shared, x: Writer) {
    w.k in s.h.leaves && t == s.(h := SetLeaf(s.h, w.k, s.h.leaves[w.k].(value := w.v))) && x == w.(pc := InsLoadRoot)
  }

  ghost predicate DoLoadRoot(s: Shared, w: Writer, t: Shared, x: Writer) {
    t == s && x == w.(pc := if s.h.root == Null then InsPutLeaf else InsDescend, slot := RootSlot, n := s.h.root)
  }

  /** One turn of the descent, or the choice made where it stops. */
  ghost predicate DoDescend(s: Shared, w: Writer, t: Shared, x: Writer) {
    && t == s
    && match w.n
       case Null => x == w.(pc := InsPutLeaf)
       case N(a) =>
         a in s.h.nodes &&
         if s.h.nodes[a].path <= w.key then
           var next := ChildSlot(a, w.key[s.h.nodes[a].depth]);
           x == w.(slot := next, n := Read(s.h, next))
         else
           x == w.(pc := InsAllocNode)
       case L(a) =>
         a in s.h.leaves &&
         if s.h.leaves[a].key == w.key then
           x == w.(pc := InsFreeLeaf1, after := if w.update then ToUpdate else ToExist, b := a)
         else
           x == w.(pc := InsAllocNode)
  }

  ghost predicate DoPutLeaf(s: Shared, w: Writer, t: Shared, x: Writer) {
    && SlotOk(s.h, w.slot) && x == w.(pc := InsDone, code := Ok)
    && t == s.(h := Write(s.h, w.slot, L(w.k)).(ll := s.h.ll + {w.k}), handL := {},
               hist := s.hist + [Last(s.hist)[w.key := w.v]])
  }

  ghost predicate DoFreeLeaf1(s: Shared, w: Writer, t: Shared, x: Writer) {
    w.k in s.h.leaves && t == s.(h := SetLeaf(s.h, w.k, s.h.leaves[w.k].(value := s.poolL))) &&
      x == w.(pc := InsFreeLeaf2)
  }

  ghost predicate DoFreeLeaf2(s: Shared, w: Writer, t: Shared, x: Writer) {
    && t == s.(poolL := w.k, freeL := [w.k] + s.freeL, handL := {})
    && x == if w.after == ToUpdate then w.(pc := InsUpdate)
            else w.(pc := InsDone, code := if w.after == ToExist then Exist else NoMem)
  }

  ghost predicate DoUpdate(s: Shared, w: Writer, t: Shared, x: Writer) {
    && w.b in s.h.leaves && x == w.(pc := InsDone, code := Ok)
    && t == s.(h := SetLeaf(s.h, w.b, s.h.leaves[w.b].(value := w.v)), hist := s.hist + [Last(s.hist)[w.key := w.v]])
  }

  ghost predicate DoAllocNode(s: Shared, w: Writer, t: Shared, x: Writer) {
    || (s.poolN == Null && t == s && x == w.(pc := InsFreeLeaf1, after := ToNoMem))
    || (s.poolN == Null && x.b !in s.h.nodes
        && t == s.(h := SetNode(s.h, x.b, ZeroNode()), handN := {x.b}) && x == w.(pc := InsClear, b := x.b, i := 0))
    || (s.poolN.N? && s.poolN.a in s.h.nodes && |s.freeN| > 0
        && t == s.(poolN := s.h.nodes[s.poolN.a].child[0], freeN := s.freeN[1..], handN := {s.poolN.a})
        && x == w.(pc := InsClear, b := s.poolN.a, i := 0))
  }

  ghost predicate DoClear(s: Shared, w: Writer, t: Shared, x: Writer) {
    w.b in s.h.nodes &&
    if w.i < 16 then t == s.(h := SetKid(s.h, w.b, w.i, Null)) && x == w.(i := w.i + 1)
    else t == s && x == w.(pc := InsKid1)
  }

  ghost predicate DoKid1(s: Shared, w: Writer, t: Shared, x: Writer) {
    && w.b in s.h.nodes && Split(s.h, w.key, w.n)
    && t == s.(h := SetKid(s.h, w.b, w.key[SplitAt(s.h, w.key, w.n)], L(w.k))) && x == w.(pc := InsKid2)
  }

  ghost predicate DoKid2(s: Shared, w: Writer, t: Shared, x: Writer) {
    && w.b in s.h.nodes && Split(s.h, w.key, w.n)
    && t == s.(h := SetKid(s.h, w.b, LocOf(s.h, w.n)[SplitAt(s.h, w.key, w.n)], w.n)) && x == w.(pc := InsDepth)
  }

  ghost predicate DoDepth(s: Shared, w: Writer, t: Shared, x: Writer) {
    && w.b in s.h.nodes && Split(s.h, w.key, w.n)
    && t == s.(h := SetNode(s.h, w.b, s.h.nodes[w.b].(depth := SplitAt(s.h, w.key, w.n)))) && x == w.(pc := InsPath)
  }

  ghost predicate DoPath(s: Shared, w: Writer, t: Shared, x: Writer) {
    && w.b in s.h.nodes && Split(s.h, w.key, w.n)
    && t == s.(h := SetNode(s.h, w.b, s.h.nodes[w.b].(path := w.key[..SplitAt(s.h, w.key, w.n)]))) &&
      x == w.(pc := InsPublish)
  }

  ghost predicate DoPublish(s: Shared, w: Writer, t: Shared, x: Writer) {
    && SlotOk(s.h, w.slot) && x == w.(pc := InsDone, code := Ok)
    && t == s.(h := Write(s.h, w.slot, N(w.b)).(ln := s.h.ln + {w.b}, ll := s.h.ll + {w.k}), handN := {}, handL := {},
               hist := s.hist + [Last(s.hist)[w.key := w.v]])
  }

  ghost predicate DoReturn(s: Shared, w: Writer, t: Shared, x: Writer) {
    t == s && x == w.(pc := Idle)
  }

  /** The key leaves the location of link `n`. */
  ghost predicate Split(h: Heap, key: Key, n: Ptr) {
    n != Null && OkPtr(h, n) && |LocOf(h, n)| <= 16 && !(LocOf(h, n) <= key)
  }

  ghost function SplitAt(h: Heap, key: Key, n: Ptr): Nib
    requires Split(h, key, n)
  {
    FirstDiff(key, LocOf(h, n))
  }

  // ---------- the lock holder: remove ----------

  ghost predicate DoRemStart(s: Shared, w: Writer, t: Shared, x: Writer) {
    t == s && x == if s.h.root == Null then w.(pc := RemDone, res := 0) else w.(pc := RemBump)
  }

  ghost predicate DoBump(s: Shared, w: Writer, t: Shared, x: Writer) {
    t == s.(count := s.count + 1) && x == w.(pc := RemFreeN1, r := s.count)
  }

  ghost predicate DoFreeN1(s: Shared, w: Writer, t: Shared, x: Writer) {
    var p := s.pendN[w.r % DELETED_LIFE];
    if p == Null then t == s && x == w.(pc := RemFreeL1)
    else && p.N? && p.a in s.h.nodes && x == w.(pc := RemFreeN2, b := p.a)
         && t == s.(h := SetKid(s.h, p.a, 0, s.poolN), retN := s.retN - {p.a}, handN := {p.a})
  }

  ghost predicate DoFreeN2(s: Shared, w: Writer, t: Shared, x: Writer) {
    t == s.(poolN := N(w.b), freeN := [w.b] + s.freeN, handN := {}) && x == w.(pc := RemFreeL1)
  }

  ghost predicate DoFreeL1(s: Shared, w: Writer, t: Shared, x: Writer) {
    var p := s.pendL[w.r % DELETED_LIFE];
    if p == Null then t == s && x == w.(pc := RemClearN)
    else && p.L? && p.a in s.h.leaves && x == w.(pc := RemFreeL2, k := p.a)
         && t == s.(h := SetLeaf(s.h, p.a, s.h.leaves[p.a].(value := s.poolL)), retL := s.retL - {p.a}, handL := {p.a})
  }

  ghost predicate DoFreeL2(s: Shared, w: Writer, t: Shared, x: Writer) {
    t == s.(poolL := w.k, freeL := [w.k] + s.freeL, handL := {}) && x == w.(pc := RemClearN)
  }

  ghost predicate DoClearN(s: Shared, w: Writer, t: Shared, x: Writer) {
    t == s.(pendN := s.pendN[w.r % DELETED_LIFE := Null]) && x == w.(pc := RemClearL)
  }

  ghost predicate DoClearL(s: Shared, w: Writer, t: Shared, x: Writer) {
    && t == s.(pendL := s.pendL[w.r % DELETED_LIFE := Null])
    && x == w.(pc := RemDescend, up := RootSlot, slot := RootSlot, n := s.h.root)
  }

  ghost predicate DoRemDescend(s: Shared, w: Writer, t: Shared, x: Writer) {
    && t == s
    && match w.n
       case Null => x == w.(pc := RemDone, res := 0)
       case N(a) =>
         a in s.h.nodes
         && var next := ChildSlot(a, w.key[s.h.nodes[a].depth]);
            x == w.(up := w.slot, slot := next, n := Read(s.h, next))
       case L(a) =>
         a in s.h.leaves
         && x == if s.h.leaves[a].key == w.key then w.(pc := RemUnlink, k := a) else w.(pc := RemDone, res := 0)
  }

  ghost predicate DoUnlink(s: Shared, w: Writer, t: Shared, x: Writer) {
    && SlotOk(s.h, w.slot) && |s.hist| > 0
    && t == s.(h := Write(s.h, w.slot, Null).(ll := s.h.ll - {w.k}), hist := s.hist + [Last(s.hist) - {w.key}],
               retL := s.retL[w.k := Ret(w.r, |s.hist| - 1)])
    && x == if w.slot.RootSlot? then w.(pc := RemValue) else w.(pc := RemCount, b := w.slot.a)
  }

  /** The scan of the children that remain. */
  ghost predicate DoCount(s: Shared, w: Writer, t: Shared, x: Writer) {
    && t == s && w.b in s.h.nodes
    && if TwoKids(s.h.nodes[w.b]) then x == w.(pc := RemValue)
       else x.i < 16 && OnlyKid(s.h.nodes[w.b], x.i) && x == w.(pc := RemSkip, i := x.i)
  }

  ghost predicate DoSkip(s: Shared, w: Writer, t: Shared, x: Writer) {
    && SlotOk(s.h, w.up) && w.b in s.h.nodes && |s.hist| > 0 && w.i < 16
    && t == s.(h := Write(s.h, w.up, s.h.nodes[w.b].child[w.i]).(ln := s.h.ln - {w.b}),
               retN := s.retN[w.b := Ret(w.r, |s.hist| - 1)])
    && x == w.(pc := RemPendN)
  }

  ghost predicate DoPendN(s: Shared, w: Writer, t: Shared, x: Writer) {
    t == s.(pendN := s.pendN[w.r % DELETED_LIFE := N(w.b)]) && x == w.(pc := RemValue)
  }

  ghost predicate DoValue(s: Shared, w: Writer, t: Shared, x: Writer) {
    t == s && w.k in s.h.leaves && x == w.(pc := RemPendL, res := s.h.leaves[w.k].value)
  }

  ghost predicate DoPendL(s: Shared, w: Writer, t: Shared, x: Writer) {
    t == s.(pendL := s.pendL[w.r % DELETED_LIFE := L(w.k)]) && x == w.(pc := RemDone)
  }

  ghost predicate WriterNext(s: Shared, w: Writer, t: Shared, x: Writer)
  {
    match w.pc
    case Idle => DoIdle(s, w, t, x)
    case InsAllocLeaf => DoAllocLeaf(s, w, t, x)
    case InsSetKey => DoSetKey(s, w, t, x)
    case InsSetValue => DoSetValue(s, w, t, x)
    case InsLoadRoot => DoLoadRoot(s, w, t, x)
    case InsDescend => DoDescend(s, w, t, x)
    case InsPutLeaf => DoPutLeaf(s, w, t, x)
    case InsFreeLeaf1 => DoFreeLeaf1(s, w, t, x)
    case InsFreeLeaf2 => DoFreeLeaf2(s, w, t, x)
    case InsUpdate => DoUpdate(s, w, t, x)
    case InsAllocNode => DoAllocNode(s, w, t, x)
    case InsClear => DoClear(s, w, t, x)
    case InsKid1 => DoKid1(s, w, t, x)
    case InsKid2 => DoKid2(s, w, t, x)
    case InsDepth => DoDepth(s, w, t, x)
    case InsPath => DoPath(s, w, t, x)
    case InsPublish => DoPublish(s, w, t, x)
    case InsDone => DoReturn(s, w, t, x)
    case RemStart => DoRemStart(s, w, t, x)
    case RemBump => DoBump(s, w, t, x)
    case RemFreeN1 => DoFreeN1(s, w, t, x)
    case RemFreeN2 => DoFreeN2(s, w, t, x)
    case RemFreeL1 => DoFreeL1(s, w, t, x)
    case RemFreeL2 => DoFreeL2(s, w, t, x)
    case RemClearN => DoClearN(s, w, t, x)
    case RemClearL => DoClearL(s, w, t, x)
    case RemDescend => DoRemDescend(s, w, t, x)
    case RemUnlink => DoUnlink(s, w, t, x)
    case RemCount => DoCount(s, w, t, x)
    case RemSkip => DoSkip(s, w, t, x)
    case RemPendN => DoPendN(s, w, t, x)
    case RemValue => DoValue(s, w, t, x)
    case RemPendL => DoPendL(s, w, t, x)
    case RemDone => DoReturn(s, w, t, x)
  }

  // ---------- a reader ----------

  /** The links a reader may follow next lead into allocated memory. */
  ghost predicate ReaderSafe(s: Shared, rd: Reader) {
    match rd
    case RWalk(_, _, _, _, p) => OkPtr(s.h, p)
    case RChild(_, _, _, _, a, _) => a in s.h.nodes
    case RValue(_, _, _, _, a) => a in s.h.leaves
    case _ => true
  }

  /** One load of `critnib_get`. */
  ghost function ReaderNext(s: Shared, rd: Reader): Reader
    requires ReaderSafe(s, rd) && |s.hist| > 0
  {
    match rd
    case RStart(key, cs) => RRoot(key, cs, s.count, |s.hist| - 1)
    case RRoot(key, cs, wc, st) => RWalk(key, cs, wc, st, s.h.root)
    case RWalk(key, cs, wc, st, p) =>
      (match p
       case Null => RCheck(key, cs, wc, st, 0)
       case N(a) => RChild(key, cs, wc, st, a, s.h.nodes[a].depth)
       case L(a) => if s.h.leaves[a].key == key then RValue(key, cs, wc, st, a) else RCheck(key, cs, wc, st, 0))
    case RChild(key, cs, wc, st, a, d) => RWalk(key, cs, wc, st, s.h.nodes[a].child[key[d]])
    case RValue(key, cs, wc, st, a) => RCheck(key, cs, wc, st, s.h.leaves[a].value)
    case RCheck(key, cs, wc, st, res) => if wc + DELETED_LIFE <= s.count then RStart(key, cs) else RDone(key, cs, res)
    case RDone(key, cs, res) => rd
  }

  // ---------- the system ----------

  ghost predicate Init(y: Sys) {
    && y.s == Shared(Heap(Null, map[], map[], {}, {}), Null, 0, seq(DELETED_LIFE, i => Null),
      seq(DELETED_LIFE, i => Null), 0, [map[]], [], [], {}, {}, map[], map[])
    && y.w.pc == Idle && y.readers == map[]
  }

  ghost predicate WriterStep(y: Sys, z: Sys) {
    WriterNext(y.s, y.w, z.s, z.w) && z.readers == y.readers
  }

  /** Reader `i` calls `critnib_get`, or makes its next load. */
  ghost predicate ReaderStep(y: Sys, z: Sys, i: nat) {
    && z.s == y.s && z.w == y.w && |y.s.hist| > 0
    && if i in y.readers then
         ReaderSafe(y.s, y.readers[i]) && z.readers == y.readers[i := ReaderNext(y.s, y.readers[i])]
       else
         i in z.readers && z.readers[i].RStart? && z.readers[i].cs == |y.s.hist| - 1 &&
           z.readers == y.readers[i := z.readers[i]]
  }

  ghost predicate Next(y: Sys, z: Sys) {
    WriterStep(y, z) || exists i :: ReaderStep(y, z, i)
  }

  ghost predicate IsRun(run: seq<Sys>) {
    |run| > 0 && Init(run[0]) && forall i | 0 <= i < |run| - 1 :: Next(run[i], run[i + 1])
  }
}
