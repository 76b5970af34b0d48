/** Readers: their own loads and the lock holder's steps keep what they know. */
module CritnibReaders {
  import opened CritnibHeap
  import opened CritnibMachine
  import opened CritnibInvariant

  lemma AbsentGrows(hist: seq<Contents>, more: seq<Contents>, from: nat, key: Key)
    requires hist <= more && WasAbsent(hist, from, key)
    ensures WasAbsent(more, from, key)
  {
    var j :| from <= j < |hist| && key !in hist[j];
    assert more[j] == hist[j];
  }

  lemma ValueGrows(hist: seq<Contents>, more: seq<Contents>, from: nat, key: Key, v: nat)
    requires hist <= more && WasValue(hist, from, key, v)
    ensures WasValue(more, from, key, v)
  {
    var j :| from <= j < |hist| && Lookup(hist[j], key) == v;
    assert more[j] == hist[j];
  }

  /** The grace period at work: while a reader is not stale, nothing it holds is reused. */
  lemma HeldStable(s: Shared, t: Shared, p: Ptr, wc: nat, st: nat)
    requires Evolves(s, t) && OkPtr(s.h, p) && Held(s, p, wc, st) && wc <= s.count && st < |s.hist| && !Stale(t, wc)
    ensures Held(t, p, wc, st) && SameObject(s, t, p)
  {
  }

  lemma FollowingStable(s: Shared, t: Shared, key: Key, wc: nat, st: nat, p: Ptr)
    requires Evolves(s, t) && OkPtr(s.h, p) && Following(s, key, wc, st, p) && wc <= s.count && st < |s.hist| &&
      !Stale(t, wc)
    ensures OkPtr(t.h, p) && Following(t, key, wc, st, p) && (p != Null ==> SameObject(s, t, p))
  {
    if p != Null {
      HeldStable(s, t, p, wc, st);
    }
    if WasAbsent(s.hist, st, key) {
      AbsentGrows(s.hist, t.hist, st, key);
    }
  }

  /** A step of the lock holder keeps every reader's knowledge. */
  lemma ReaderStable(s: Shared, t: Shared, rd: Reader)
    requires Evolves(s, t) && ReaderOk(s, rd)
    ensures ReaderOk(t, rd)
  {
    match rd
    case RWalk(key, cs, wc, st, p) =>
      if !Stale(t, wc) { FollowingStable(s, t, key, wc, st, p); }
    case RChild(key, cs, wc, st, a, d) =>
      if !Stale(t, wc) { FollowingStable(s, t, key, wc, st, N(a)); }
    case RValue(key, cs, wc, st, a) =>
      if !Stale(t, wc) { FollowingStable(s, t, key, wc, st, L(a)); }
    case RCheck(key, cs, wc, st, res) =>
      if !Stale(t, wc) { ValueGrows(s.hist, t.hist, st, key, res); }
    case RDone(key, cs, res) =>
      ValueGrows(s.hist, t.hist, cs, key, res);
    case _ =>
  }

  // ---------- a reader's own loads ----------

  lemma AbsentNow(s: Shared, st: nat, key: Key)
    requires st < |s.hist| && key !in Last(s.hist)
    ensures WasAbsent(s.hist, st, key)
  {
    assert key !in s.hist[|s.hist| - 1];
  }

  lemma AbsentIsNull(hist: seq<Contents>, st: nat, key: Key)
    requires WasAbsent(hist, st, key)
    ensures WasValue(hist, st, key, 0)
  {
    var j :| st <= j < |hist| && key !in hist[j];
    assert Lookup(hist[j], key) == 0;
  }

  lemma AbsentSince(hist: seq<Contents>, from: nat, st: nat, key: Key)
    requires WasAbsent(hist, from, key) && st <= from
    ensures WasAbsent(hist, st, key)
  {
    var j :| from <= j < |hist| && key !in hist[j];
    assert st <= j;
  }

  lemma LoadRoot(s: Shared, w: Writer, key: Key, cs: nat, wc: nat, st: nat)
    requires MemoryOk(s, w) && Started(s, cs, wc, st)
    ensures OkPtr(s.h, s.h.root) && Following(s, key, wc, st, s.h.root)
  {
    var p := s.h.root;
    assert LiveSlot(s.h, RootSlot) && Get(s.h, RootSlot) == p;
    if p == Null || !(LocOf(s.h, p) <= key) {
      AbsentAt(s.h, Last(s.hist), RootSlot, key);
      AbsentNow(s, st, key);
    }
  }

  /** Loading a child of a node that is part of the tree. */
  lemma LoadLiveChild(s: Shared, w: Writer, key: Key, cs: nat, wc: nat, st: nat, a: nat)
    requires MemoryOk(s, w) && Started(s, cs, wc, st) && a in s.h.nodes && Live(s.h, N(a)) &&
      Following(s, key, wc, st, N(a))
    ensures var p := s.h.nodes[a].child[key[s.h.nodes[a].depth]]; OkPtr(s.h, p) && Following(s, key, wc, st, p)
  {
    var slot := ChildSlot(a, key[s.h.nodes[a].depth]);
    assert LiveSlot(s.h, slot);
    var p := Get(s.h, slot);
    if s.h.nodes[a].path <= key && (p == Null || !(LocOf(s.h, p) <= key)) {
      NodeShorter(s.h, a, key);
      AbsentAt(s.h, Last(s.hist), slot, key);
      AbsentNow(s, st, key);
    }
  }

  /** Loading a child of a node that has been unlinked since the attempt began. */
  lemma LoadRetiredChild(s: Shared, w: Writer, key: Key, cs: nat, wc: nat, st: nat, a: nat)
    requires MemoryOk(s, w) && Started(s, cs, wc, st) && a in s.h.nodes && !Live(s.h, N(a)) &&
      Following(s, key, wc, st, N(a))
    ensures var p := s.h.nodes[a].child[key[s.h.nodes[a].depth]]; OkPtr(s.h, p) && Following(s, key, wc, st, p)
  {
    assert RetiredNodeOk(s, a);
    var n, z := s.h.nodes[a], s.retN[a];
    var p := n.child[key[n.depth]];
    if p != Null { assert LaterThan(s, p, z); }
    if n.path <= key && (p == Null || !(LocOf(s.h, p) <= key)) {
      assert WasAbsent(s.hist, z.at, key);
      AbsentSince(s.hist, z.at, st, key);
    }
  }

  /** Loading the value of a leaf with the wanted key. */
  lemma LoadValue(s: Shared, w: Writer, key: Key, cs: nat, wc: nat, st: nat, a: nat)
    requires MemoryOk(s, w) && Started(s, cs, wc, st) && a in s.h.leaves && Following(s, key, wc, st, L(a)) &&
      s.h.leaves[a].key == key
    ensures WasValue(s.hist, st, key, s.h.leaves[a].value)
  {
    if Live(s.h, L(a)) {
      assert Lookup(s.hist[|s.hist| - 1], key) == s.h.leaves[a].value;
    } else {
      assert RetiredLeafOk(s, a);
      var at := s.retL[a].at;
      assert Lookup(s.hist[at], key) == s.h.leaves[a].value;
    }
  }

  lemma ChildMoves(s: Shared, w: Writer, rd: Reader)
    requires MemoryOk(s, w) && ReaderOk(s, rd) && rd.RChild?
    ensures ReaderOk(s, ReaderNext(s, rd))
  {
    var RChild(key, cs, wc, st, a, d) := rd;
    if Stale(s, wc) {
      assert OkPtr(s.h, s.h.nodes[a].child[key[d]]);
    } else if Live(s.h, N(a)) {
      LoadLiveChild(s, w, key, cs, wc, st, a);
    } else {
      LoadRetiredChild(s, w, key, cs, wc, st, a);
    }
  }

  lemma WalkMoves(s: Shared, rd: Reader)
    requires ReaderOk(s, rd) && |s.hist| > 0 && (rd.RWalk? || rd.RCheck?)
    ensures ReaderOk(s, ReaderNext(s, rd))
  {
    match rd
    case RWalk(key, cs, wc, st, p) =>
      if !Stale(s, wc) && WasAbsent(s.hist, st, key) { AbsentIsNull(s.hist, st, key); }
    case RCheck(key, cs, wc, st, res) =>
      if !Stale(s, wc) {
        var j :| st <= j < |s.hist| && Lookup(s.hist[j], key) == res;
        assert cs <= j;
      }
  }

  /** A load by a reader keeps what that reader knows. */
  lemma ReaderMoves(s: Shared, w: Writer, rd: Reader)
    requires MemoryOk(s, w) && ReaderOk(s, rd)
    ensures ReaderOk(s, ReaderNext(s, rd))
  {
    match rd
    case RRoot(key, cs, wc, st) => LoadRoot(s, w, key, cs, wc, st);
    case RWalk(_, _, _, _, _) => WalkMoves(s, rd);
    case RCheck(_, _, _, _, _) => WalkMoves(s, rd);
    case RChild(_, _, _, _, _, _) => ChildMoves(s, w, rd);
    case RValue(key, cs, wc, st, a) =>
      if !Stale(s, wc) { LoadValue(s, w, key, cs, wc, st, a); }
    case _ =>
  }
}
