/** What holds of the ring queue between any two steps. */
module QueueInvariant {
  import opened QueueMachine

  // ---------- counting threads ----------

  ghost function Those(ws: map<nat, Writer>, p: Writer -> bool): set<nat> {
    set i | i in ws && p(ws[i])
  }

  /** Has failed to reserve and not given its reservation back yet. */
  predicate Failing(w: Writer) { w.Cancel? }
  /** Has reserved and not claimed an entry yet. */
  predicate Claiming(w: Writer) { w.ReadTail? || w.SwapTail? }
  /** Has claimed an entry and not announced it yet. */
  predicate Pending(w: Writer) { w.Check? || w.Copy? || w.Post? || w.Announce? }
  /** Has claimed an entry and not made it ready yet. */
  predicate Writing(w: Writer) { w.Check? || w.Copy? || w.Post? }

  /** Has returned success. */
  predicate Succeeded(w: Writer) { w == Done(true) }

  ghost function Fails(ws: map<nat, Writer>): nat { |Those(ws, Failing)| }
  ghost function Claims(ws: map<nat, Writer>): nat { |Those(ws, Claiming)| }
  ghost function Pends(ws: map<nat, Writer>): nat { |Those(ws, Pending)| }
  ghost function Successes(ws: map<nat, Writer>): nat { |Those(ws, Succeeded)| }

  lemma CountMoves(ws: map<nat, Writer>, i: nat, x: Writer, p: Writer -> bool)
    ensures |Those(ws[i := x], p)| == |Those(ws, p)| - (if i in ws && p(ws[i]) then 1 else 0) + (if p(x) then 1 else 0)
  {
    var a, b := Those(ws, p), Those(ws[i := x], p);
    if p(x) {
      assert b == a + {i};
    } else {
      assert b == a - {i};
    }
  }

  // ---------- the reader's place ----------

  /** The reader has an item reserved, or has taken one more than there was. */
  predicate Holding(r: Reader) { !r.AtRest? && !r.TakeOne? && !r.Returned? }
  predicate HoldingOne(r: Reader) { Holding(r) && !r.PutBack? }
  /** The reader has moved the head past the entry it looks at. */
  predicate HeadMoved(r: Reader) { r.Look? || r.Fetch? || r.Release? || r.GiveBack? || r.RollBack? }

  /** The first claim whose entry has not been set free. */
  ghost function FirstKept(y: Sys): nat {
    |y.s.popped| + if y.rd.GiveBack? then 1 else 0
  }

  // ---------- the clauses ----------

  /** The two counters, exactly; `used` overshoots by the writers that are giving up. */
  ghost predicate CountsOk(y: Sys) {
    && y.s.used == Fails(y.ws) + Claims(y.ws) + |y.s.pushed| - |y.s.popped|
    && Claims(y.ws) + |y.s.pushed| - |y.s.popped| <= y.s.size
    && y.s.unavailable == y.s.size - (|y.s.pushed| - Pends(y.ws)) + |y.s.popped| + (if Holding(y.rd) then 1 else 0)
    && |y.s.popped| + (if HoldingOne(y.rd) then 1 else 0) <= |y.s.pushed| - Pends(y.ws)
    && |y.s.pushed| == Pends(y.ws) + Successes(y.ws)
  }

  ghost predicate IndicesOk(y: Sys) {
    && |y.s.entries| == y.s.size
    && (forall i | 0 <= i < |y.s.entries| :: |y.s.entries[i].data| == y.s.entrySize)
    && (y.s.size == 0 ==> y.s.pushed == [] && y.s.popped == [] && y.s.head == y.s.tail == 0)
    && (y.s.size > 0 ==> y.s.tail == |y.s.pushed| % y.s.size
                         && y.s.head == (|y.s.popped| + if HeadMoved(y.rd) then 1 else 0) % y.s.size)
  }

  /** Claim `n` belongs to a writer that has not made its entry ready. */
  ghost predicate BeingWritten(ws: map<nat, Writer>, n: nat) {
    exists i :: i in ws && Writing(ws[i]) && ws[i].t == n
  }

  /** An entry claimed and not freed is ready exactly when its writer has finished, and then holds the item pushed. */
  ghost predicate ClaimedOk(y: Sys) {
    forall n | FirstKept(y) <= n < |y.s.pushed| :: y.s.size > 0 && n % y.s.size < |y.s.entries|
      && (y.s.entries[n % y.s.size].state == Ready <==> !BeingWritten(y.ws, n))
      && (y.s.entries[n % y.s.size].state == Ready ==> y.s.entries[n % y.s.size].data == y.s.pushed[n])
  }

  /** Every other entry is free. */
  ghost predicate FreeOk(y: Sys) {
    forall e | 0 <= e < |y.s.entries| && y.s.entries[e].state == Ready ::
      exists n :: FirstKept(y) <= n < |y.s.pushed| && y.s.size > 0 && n % y.s.size == e
  }

  /** Claim `n` is for this item, is not freed, and its entry is `e`. */
  ghost predicate OwnTicket(y: Sys, item: Item, e: nat, n: nat) {
    && FirstKept(y) <= n < |y.s.pushed| && y.s.pushed[n] == item && |item| == y.s.entrySize
    && y.s.size > 0 && e == n % y.s.size && e < |y.s.entries|
  }

  ghost predicate WriterOk(y: Sys, w: Writer) {
    match w
    case Reserve(item) => |item| == y.s.entrySize
    case Cancel(item) => true
    case ReadTail(item) => |item| == y.s.entrySize
    case SwapTail(item, _) => |item| == y.s.entrySize
    case Check(item, e, n) => OwnTicket(y, item, e, n)
    case Copy(item, e, n, i) =>
      && OwnTicket(y, item, e, n) && i <= |item| && |y.s.entries[e].data| == |item|
      && y.s.entries[e].data[..i] == item[..i]
    case Post(item, e, n) => OwnTicket(y, item, e, n) && y.s.entries[e].data == item
    case Announce(item, n) => n < |y.s.pushed|
    case Done(_) => true
    case OutOfOrder => false
  }

  ghost predicate WritersOk(y: Sys) {
    && (forall i | i in y.ws :: WriterOk(y, y.ws[i]))
    && (forall i, j | i in y.ws && j in y.ws && i != j && Pending(y.ws[i]) &&
      Pending(y.ws[j]) :: y.ws[i].t != y.ws[j].t)
  }

  /** The reader reads the first item that has not been popped. */
  ghost predicate ReaderOk(y: Sys) {
    var f := |y.s.popped|;
    match y.rd
    case SwapHead(seen) => y.s.size > 0 && seen == f % y.s.size
    case Look(idx) => y.s.size > 0 && idx == f % y.s.size
    case Fetch(idx, buf) => AtReady(y, idx) && buf <= y.s.pushed[f]
    case Release(idx, buf) => AtReady(y, idx) && buf == y.s.pushed[f]
    case GiveBack(buf) => f < |y.s.pushed| && buf == y.s.pushed[f] && !BeingWritten(y.ws, f)
    case RollBack(idx) => y.s.size > 0 && idx == f % y.s.size
    case _ => true
  }

  ghost predicate AtReady(y: Sys, idx: nat) {
    var f := |y.s.popped|;
    f < |y.s.pushed| && y.s.size > 0 && idx == f % y.s.size && idx < |y.s.entries| && y.s.entries[idx].state == Ready
  }

  /** What has been popped is the first part of what was pushed. */
  ghost predicate OrderOk(y: Sys) {
    && y.s.popped <= y.s.pushed
    && forall n | 0 <= n < |y.s.pushed| :: |y.s.pushed[n]| == y.s.entrySize
  }

  ghost predicate Inv(y: Sys) {
    CountsOk(y) && IndicesOk(y) && ClaimedOk(y) && FreeOk(y) && WritersOk(y) && ReaderOk(y) && OrderOk(y)
  }
}
