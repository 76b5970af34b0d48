/** When the threads of the ring queue can go on, and when a push is refused. */
module QueueProgress {
  import opened QueueMachine
  import opened QueueInvariant
  import opened QueueProof
  import opened QueueTheorems

  // ---------- no thread is ever stuck ----------

  lemma WriterGoes(y: Sys, i: nat) returns (t: Shared, x: Writer)
    requires Inv(y) && i in y.ws && !y.ws[i].Done?
    ensures WriterNext(y.s, y.ws[i], t, x)
    ensures y.ws[i].SwapTail? && y.ws[i].seen == y.s.tail ==> x.Check?
  {
    var s := y.s;
    assert WriterOk(y, y.ws[i]);
    match y.ws[i]
    case Reserve(item) => t, x := s.(used := s.used + 1), if s.used < s.size then ReadTail(item) else Cancel(item);
    case Cancel(item) => t, x := s.(used := s.used - 1), Done(false);
    case ReadTail(item) => t, x := s, SwapTail(item, s.tail);
    case SwapTail(item, seen) =>
      if s.tail == seen {
        CountedIn(y.ws, i, Claiming);
        t := s.(tail := Next(seen, s.size), pushed := s.pushed + [item]);
        x := Check(item, seen, |s.pushed|);
      } else {
        t, x := s, ReadTail(item);
      }
    case Check(item, e, n) => t, x := s, if s.entries[e].state == Free then Copy(item, e, n, 0) else OutOfOrder;
    case Copy(item, e, n, k) =>
      if k < s.entrySize {
        t, x := SetByte(s, e, k, item[k]), Copy(item, e, n, k + 1);
      } else {
        t, x := s, Post(item, e, n);
      }
    case Post(item, e, n) => t, x := SetState(s, e, Ready), Announce(item, n);
    case Announce(item, n) => t, x := s.(unavailable := s.unavailable - 1), Done(true);
  }

  /** The head is where the reader last saw it, since nobody else moves it. */
  lemma ReaderGoes(y: Sys) returns (t: Shared, x: Reader)
    requires Inv(y)
    ensures ReaderNext(y.s, y.rd, t, x)
    ensures y.rd.SwapHead? ==> x.Look?
  {
    var s := y.s;
    if HoldingOne(y.rd) && !y.rd.GiveBack? { HeadItem(y); }
    match y.rd
    case AtRest => t, x := s, TakeOne;
    case TakeOne => t, x := s.(unavailable := s.unavailable + 1), if s.unavailable < s.size then ReadHead else PutBack;
    case PutBack => t, x := s.(unavailable := s.unavailable - 1), Returned(false, []);
    case ReadHead => t, x := s, SwapHead(s.head);
    case SwapHead(seen) => t, x := s.(head := Next(seen, s.size)), Look(seen);
    case Look(idx) => t, x := s, if s.entries[idx].state == Ready then Fetch(idx, []) else RollBack(idx);
    case Fetch(idx, buf) =>
      t, x := s, if |buf| < s.entrySize then Fetch(idx, buf + [s.entries[idx].data[|buf|]]) else Release(idx, buf);
    case Release(idx, buf) => t, x := SetState(s, idx, Free), GiveBack(buf);
    case GiveBack(buf) => t, x := s.(used := s.used - 1, popped := s.popped + [buf]), Returned(true, buf);
    case RollBack(idx) => t, x := s.(head := idx), RollBackCount;
    case RollBackCount => t, x := s.(unavailable := s.unavailable - 1), Returned(false, []);
    case Returned(_, _) => t, x := s, AtRest;
  }

  /** From every state of every run each writer that has not returned has a next step. */
  lemma WritersGoOn(run: seq<Sys>, m: nat, i: nat) returns (z: Sys)
    requires IsRun(run) && m < |run| && i in run[m].ws && !run[m].ws[i].Done?
    ensures WriterStep(run[m], z, i)
  {
    RunOk(run, m);
    var t, x := WriterGoes(run[m], i);
    z := Sys(t, run[m].ws[i := x], run[m].rd);
  }

  /** And so has the reader. */
  lemma ReaderGoesOn(run: seq<Sys>, m: nat) returns (z: Sys)
    requires IsRun(run) && m < |run|
    ensures ReaderStep(run[m], z)
  {
    RunOk(run, m);
    var t, x := ReaderGoes(run[m]);
    z := Sys(t, run[m].ws, x);
  }

  // ---------- when a push is refused ----------

  /**
    A push is refused exactly if the items not popped, the pushes that have a place coming, and the
    pushes that were refused and have not taken their count back yet make up the size.
   */
  lemma PushRefused(run: seq<Sys>, m: nat, i: nat)
    requires IsRun(run) && m + 1 < |run| && WriterStep(run[m], run[m + 1], i) && i in run[m].ws && run[m].ws[i].Reserve?
    ensures var y := run[m];
      run[m + 1].ws[i].Cancel? <==> |y.s.pushed| - |y.s.popped| + Claims(y.ws) + Fails(y.ws) >= y.s.size
  {
    RunOk(run, m);
    assert CountsOk(run[m]);
  }

  // ---------- when a pop comes back empty ----------

  /** The reader gives up before it moves the head exactly if every item that was announced is popped. */
  lemma NothingAnnounced(run: seq<Sys>, m: nat)
    requires IsRun(run) && m + 1 < |run| && ReaderStep(run[m], run[m + 1]) && run[m].rd.TakeOne?
    ensures run[m + 1].rd.PutBack? <==> Successes(run[m].ws) == |run[m].s.popped|
    ensures run[m + 1].rd.PutBack? || run[m + 1].rd.ReadHead?
  {
    RunOk(run, m);
    assert CountsOk(run[m]);
  }

  /** It rolls the head back exactly if the first item that is not popped is still being written. */
  lemma NextUnfinished(run: seq<Sys>, m: nat)
    requires IsRun(run) && m + 1 < |run| && ReaderStep(run[m], run[m + 1]) && run[m].rd.Look?
    ensures run[m + 1].rd.RollBack? <==> BeingWritten(run[m].ws, |run[m].s.popped|)
    ensures run[m + 1].rd.RollBack? || run[m + 1].rd.Fetch?
  {
    RunOk(run, m);
    HeadItem(run[m]);
  }

  /** These are the only two ways for a pop to come back empty. */
  lemma PopsEmptyOnlyThen(y: Sys, z: Sys)
    requires ReaderStep(y, z)
    ensures z.rd.Returned? && !z.rd.ok ==> y.rd.PutBack? || y.rd.RollBackCount?
    ensures z.rd.PutBack? ==> y.rd.TakeOne?
    ensures z.rd.RollBackCount? ==> y.rd.RollBack?
    ensures z.rd.RollBack? ==> y.rd.Look?
  {
  }

  ghost predicate EndsIn(run: seq<Sys>, y: Sys) {
    IsRun(run) && run[|run| - 1] == y
  }

  ghost predicate Reachable(y: Sys) {
    exists run :: EndsIn(run, y)
  }

  lemma StepReaches(y: Sys, z: Sys)
    requires Reachable(y) && Step(y, z)
    ensures Reachable(z)
  {
    var run :| EndsIn(run, y);
    var more := run + [z];
    forall i | 0 <= i < |more| - 1 ensures Step(more[i], more[i + 1]) {
      if i < |run| - 1 { assert Step(run[i], run[i + 1]); }
    }
    assert EndsIn(more, z);
  }

  lemma WriterMoves(y: Sys, i: nat, t: Shared, x: Writer) returns (z: Sys)
    requires Reachable(y) && i in y.ws && WriterNext(y.s, y.ws[i], t, x)
    ensures Reachable(z) && z == Sys(t, y.ws[i := x], y.rd)
  {
    z := Sys(t, y.ws[i := x], y.rd);
    assert WriterStep(y, z, i);
    StepReaches(y, z);
  }

  lemma WriterComes(y: Sys, i: nat, item: Item) returns (z: Sys)
    requires Reachable(y) && i !in y.ws && |item| == y.s.entrySize
    ensures Reachable(z) && z == y.(ws := y.ws[i := Reserve(item)])
  {
    z := y.(ws := y.ws[i := Reserve(item)]);
    assert WriterStep(y, z, i);
    StepReaches(y, z);
  }

  lemma ReaderMoves(y: Sys, t: Shared, x: Reader) returns (z: Sys)
    requires Reachable(y) && ReaderNext(y.s, y.rd, t, x)
    ensures Reachable(z) && z == Sys(t, y.ws, x)
  {
    z := Sys(t, y.ws, x);
    StepReaches(y, z);
  }

  /** A queue of one entry of no bytes. */
  lemma OneSlot() returns (y: Sys)
    ensures Reachable(y) && y == Sys(Shared(1, 0, 0, 0, 0, 1, [Entry(Free, [])], [], []), map[], AtRest)
  {
    y := Sys(Shared(1, 0, 0, 0, 0, 1, [Entry(Free, [])], [], []), map[], AtRest);
    assert EndsIn([y], y);
  }

  /** Thread 0 has claimed the entry. */
  lemma ClaimedSlot() returns (y: Sys)
    ensures Reachable(y) && y.s == Shared(1, 0, 0, 0, 1, 1, [Entry(Free, [])], [[]], []) && y.rd == AtRest
    ensures y.ws == map[0 := Check([], 0, 0)]
  {
    y := OneSlot();
    y := WriterComes(y, 0, []);
    y := WriterMoves(y, 0, y.s.(used := 1), ReadTail([]));
    y := WriterMoves(y, 0, y.s, SwapTail([], 0));
    y := WriterMoves(y, 0, y.s.(pushed := [[]]), Check([], 0, 0));
  }

  /** Its push is done. */
  lemma FullSlot() returns (y: Sys)
    ensures Reachable(y) && y.s == Shared(1, 0, 0, 0, 1, 0, [Entry(Ready, [])], [[]], []) && y.rd == AtRest
    ensures y.ws.Keys == {0}
  {
    y := ClaimedSlot();
    y := WriterMoves(y, 0, y.s, Copy([], 0, 0, 0));
    y := WriterMoves(y, 0, y.s, Post([], 0, 0));
    y := WriterMoves(y, 0, SetState(y.s, 0, Ready), Announce([], 0));
    y := WriterMoves(y, 0, y.s.(unavailable := 0), Done(true));
  }

  /** The reader has found the item. */
  lemma FoundItem(y0: Sys) returns (y: Sys)
    requires Reachable(y0) && y0.rd == AtRest && y0.s == Shared(1, 0, 0, 0, 2, 0, [Entry(Ready, [])], [[]], [])
    ensures Reachable(y) && y.ws == y0.ws && y.rd == Fetch(0, []) && y.s == y0.s.(unavailable := 1)
  {
    y := ReaderMoves(y0, y0.s, TakeOne);
    y := ReaderMoves(y, y.s.(unavailable := 1), ReadHead);
    y := ReaderMoves(y, y.s, SwapHead(0));
    y := ReaderMoves(y, y.s, Look(0));
    y := ReaderMoves(y, y.s, Fetch(0, []));
  }

  /** The item is popped. */
  lemma PoppedItem(y0: Sys) returns (y: Sys)
    requires Reachable(y0) && y0.rd == Fetch(0, []) && y0.s == Shared(1, 0, 0, 0, 2, 1, [Entry(Ready, [])], [[]], [])
    ensures Reachable(y) && y.ws == y0.ws && y.s.used == 1 && y.s.size == 1 && y.s.entrySize == 0
    ensures y.s.popped == y.s.pushed
  {
    y := ReaderMoves(y0, y0.s, Release(0, []));
    y := ReaderMoves(y, SetState(y.s, 0, Free), GiveBack([]));
    y := ReaderMoves(y, y.s.(used := 1, popped := [[]]), Returned(true, []));
  }

  /**
    A push can be refused by an empty queue: thread 1 is refused while the queue is full, the item is
    popped before it takes its count back, and thread 2 still finds the count at the size.
   */
  lemma EmptyAndRefused() returns (y: Sys)
    ensures Reachable(y) && y.s.pushed == y.s.popped && y.s.size == 1 && 2 in y.ws && y.ws[2].Cancel?
  {
    y := FullSlot();
    y := WriterComes(y, 1, []);
    y := WriterMoves(y, 1, y.s.(used := 2), Cancel([]));
    y := FoundItem(y);
    y := PoppedItem(y);
    y := WriterComes(y, 2, []);
    y := WriterMoves(y, 2, y.s.(used := 2), Cancel([]));
  }
}
