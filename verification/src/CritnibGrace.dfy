/** The rings of objects that wait for reuse, one remove at a time. */
module CritnibGrace {
  import opened CritnibHeap
  import opened CritnibMachine
  import opened CritnibInvariant

  /** Two removes less than a full turn of the ring apart use different cells. */
  lemma CellsDiffer(q: nat, r: nat)
    requires q < r < q + DELETED_LIFE
    ensures Cell(q) != Cell(r)
  {
  }

  lemma CellTurn(q: nat)
    ensures Cell(q + DELETED_LIFE) == Cell(q)
  {
  }

  /** Whatever waits in the current remove's cell has waited for exactly one turn of the ring. */
  lemma DueNow(ret: map<nat, Ret>, count: nat, r: nat, cur: nat, a: nat)
    requires Window(ret, count, r, Due, cur) && a in ret && Cell(ret[a].r) == Cell(r)
    ensures ret[a].r + DELETED_LIFE == r
  {
    if r < ret[a].r + DELETED_LIFE { CellsDiffer(ret[a].r, r); }
  }

  lemma GraceAtRest(ret: map<nat, Ret>, ring: Ring, node: bool, count: nat, r: nat, cur: nat, r': nat, cur': nat)
    requires Grace(ret, ring, node, count, r, Rest, cur)
    ensures Grace(ret, ring, node, count, r', Rest, cur')
  {
  }

  lemma GraceCur(ret: map<nat, Ret>, ring: Ring, node: bool, count: nat, r: nat, ph: Phase, cur: nat, cur': nat)
    requires Grace(ret, ring, node, count, r, ph, cur) && ph != Out
    ensures Grace(ret, ring, node, count, r, ph, cur')
  {
  }

  lemma GraceBump(ret: map<nat, Ret>, ring: Ring, node: bool, count: nat, r: nat, cur: nat)
    requires Grace(ret, ring, node, count, r, Rest, cur)
    ensures Grace(ret, ring, node, count + 1, count, Due, cur)
  {
  }

  /** Nothing was due. */
  lemma GraceNoneDue(ret: map<nat, Ret>, ring: Ring, node: bool, count: nat, r: nat, cur: nat)
    requires Grace(ret, ring, node, count, r, Due, cur) && ring[Cell(r)] == Null
    ensures Grace(ret, ring, node, count, r, Emptying, cur)
  {
    forall a | a in ret ensures count <= ret[a].r + DELETED_LIFE {
      CellTurn(ret[a].r);
    }
  }

  /** The object that was due stops waiting; it is the only one that was. */
  lemma GraceFree(ret: map<nat, Ret>, ring: Ring, node: bool, count: nat, r: nat, cur: nat) returns (a: nat)
    requires Grace(ret, ring, node, count, r, Due, cur) && ring[Cell(r)] != Null
    ensures a in ret && ring[Cell(r)] == Obj(node, a) && ret[a].r + DELETED_LIFE == r
    ensures forall cur' :: Grace(ret - {a}, ring, node, count, r, Emptying, cur')
  {
    a := ring[Cell(r)].a;
    DueNow(ret, count, r, cur, a);
    var ret' := ret - {a};
    forall b | b in ret' ensures count <= ret'[b].r + DELETED_LIFE {
      CellTurn(ret[b].r);
    }
  }

  lemma GraceClear(ret: map<nat, Ret>, ring: Ring, node: bool, count: nat, r: nat, cur: nat)
    requires Grace(ret, ring, node, count, r, Emptying, cur)
    ensures Grace(ret, ring[Cell(r) := Null], node, count, r, Empty, cur)
  {
    forall a | a in ret ensures Cell(ret[a].r) != Cell(r) {
      CellsDiffer(ret[a].r, r);
    }
  }

  lemma GraceUnlink(ret: map<nat, Ret>, ring: Ring, node: bool, count: nat, r: nat, cur: nat, a: nat, at: nat)
    requires Grace(ret, ring, node, count, r, Empty, cur) && a !in ret
    ensures Grace(ret[a := Ret(r, at)], ring, node, count, r, Out, a)
  {
  }

  lemma GraceStore(ret: map<nat, Ret>, ring: Ring, node: bool, count: nat, r: nat, cur: nat)
    requires Grace(ret, ring, node, count, r, Out, cur)
    ensures Grace(ret, ring[Cell(r) := Obj(node, cur)], node, count, r, Rest, cur)
  {
    forall a | a in ret && a != cur ensures Cell(ret[a].r) != Cell(r) {
      CellsDiffer(ret[a].r, r);
    }
  }

  /** The remove ends without unlinking anything of this kind. */
  lemma GraceSkip(ret: map<nat, Ret>, ring: Ring, node: bool, count: nat, r: nat, cur: nat)
    requires Grace(ret, ring, node, count, r, Empty, cur)
    ensures Grace(ret, ring, node, count, r, Rest, cur)
  {
  }
}
