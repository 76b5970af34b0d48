/**
  What a caller of `critnib_get`, `critnib_insert` or `critnib_remove` gets, in terms of the arguments of
  the call: under every interleaving, and whatever the machine's registers hold in between.
 */
module CritnibCalls {
  import opened CritnibHeap
  import opened CritnibMachine
  import opened CritnibTheorems

  // ---------- critnib_get ----------

  lemma StepAt(run: seq<Sys>, k: nat)
    requires IsRun(run) && k + 1 < |run|
    ensures Next(run[k], run[k + 1])
  {
  }

  /** A reader's call does not change: neither the key it wants nor the version that was current when it came. */
  lemma ReaderKept(y: Sys, z: Sys, i: nat)
    requires Next(y, z) && i in y.readers
    ensures i in z.readers && z.readers[i].key == y.readers[i].key && z.readers[i].cs == y.readers[i].cs
  {
    if !WriterStep(y, z) {
      var j :| ReaderStep(y, z, j);
    }
  }

  /** No step from `a` to `b` changes the call of reader `i`. */
  ghost predicate Holds(run: seq<Sys>, i: nat, a: nat, b: nat)
    requires b < |run|
  {
    forall k {:trigger run[k]} | a <= k < b && i in run[k].readers :: i in run[k + 1].readers &&
      run[k + 1].readers[i].key == run[k].readers[i].key && run[k + 1].readers[i].cs == run[k].readers[i].cs
  }

  lemma {:induction false} HeldOn(run: seq<Sys>, i: nat, a: nat, b: nat)
    requires a <= b < |run| && i in run[a].readers && Holds(run, i, a, b)
    ensures i in run[b].readers
    ensures run[b].readers[i].key == run[a].readers[i].key && run[b].readers[i].cs == run[a].readers[i].cs
  {
    if a < b {
      HeldOn(run, i, a, b - 1);
      assert i in run[b - 1].readers && i in run[b - 1 + 1].readers;
    }
  }

  lemma CallKept(run: seq<Sys>, i: nat, a: nat, b: nat)
    requires IsRun(run) && a <= b < |run| && i in run[a].readers
    ensures i in run[b].readers
    ensures run[b].readers[i].key == run[a].readers[i].key && run[b].readers[i].cs == run[a].readers[i].cs
  {
    forall k {:trigger run[k]} | a <= k < b && i in run[k].readers
      ensures i in run[k + 1].readers
      ensures run[k + 1].readers[i].key == run[k].readers[i].key && run[k + 1].readers[i].cs == run[k].readers[i].cs
    {
      StepAt(run, k);
      ReaderKept(run[k], run[k + 1], i);
    }
    HeldOn(run, i, a, b);
  }

  /** A reader comes in at the version that is current. */
  lemma ReaderComes(y: Sys, z: Sys, i: nat)
    requires Next(y, z) && i !in y.readers && i in z.readers
    ensures z.s == y.s && z.readers[i].RStart? && z.readers[i].cs == |z.s.hist| - 1
  {
    if !WriterStep(y, z) {
      var j :| ReaderStep(y, z, j);
    }
  }

  /** In the map at this moment `k` has this value, or is absent and the value is NULL. */
  ghost predicate Had(y: Sys, k: Key, value: nat) {
    value == if k in Last(y.s.hist) then Last(y.s.hist)[k] else 0
  }

  /**
    The promise of `critnib_get`: a call with key `k` that comes in at state `a` and is answered by state
    `b`, under every interleaving with inserts, updates and removes, is answered with what `k` had in some
    state from `a` to `b`, and with NULL only if `k` was absent in one of them or had NULL for a value.
   */
  lemma GetReturnsValueOfItsInterval(run: seq<Sys>, a: nat, b: nat, i: nat, k: Key)
    requires IsRun(run) && 0 < a <= b < |run|
    requires i !in run[a - 1].readers && i in run[a].readers && run[a].readers[i].key == k
    requires i in run[b].readers && run[b].readers[i].RDone?
    ensures exists m | a <= m <= b :: Had(run[m], k, run[b].readers[i].res)
  {
    StepAt(run, a - 1);
    ReaderComes(run[a - 1], run[a], i);
    CallKept(run, i, a, b);
    AnswerWasCurrent(run, a, b, i);
    var m :| a <= m <= b && Lookup(Last(run[m].s.hist), run[b].readers[i].key) == run[b].readers[i].res;
    assert Had(run[m], k, run[b].readers[i].res);
  }

  // ---------- when a lookup tries again ----------

  predicate Trying(rd: Reader) {
    !rd.RStart? && !rd.RDone?
  }

  /** Reader `i` is in one attempt in all states from `a` to `b`. */
  ghost predicate OneAttempt(run: seq<Sys>, i: nat, a: nat, b: nat)
    requires b < |run|
  {
    forall k {:trigger run[k]} | a <= k <= b :: i in run[k].readers && Trying(run[k].readers[i])
  }

  /** An attempt keeps the count of removes that it began with. */
  lemma AttemptKept(y: Sys, z: Sys, i: nat)
    requires Next(y, z) && i in y.readers && i in z.readers && Trying(y.readers[i]) && Trying(z.readers[i])
    ensures z.readers[i].wc == y.readers[i].wc
  {
    if !WriterStep(y, z) {
      var j :| ReaderStep(y, z, j);
    }
  }

  ghost predicate OneCount(run: seq<Sys>, i: nat, a: nat, b: nat)
    requires b < |run| && OneAttempt(run, i, a, b)
  {
    forall k {:trigger run[k]} | a <= k < b :: run[k + 1].readers[i].wc == run[k].readers[i].wc
  }

  lemma {:induction false} CountStays(run: seq<Sys>, i: nat, a: nat, b: nat)
    requires a <= b < |run| && OneAttempt(run, i, a, b) && OneCount(run, i, a, b)
    ensures run[b].readers[i].wc == run[a].readers[i].wc
  {
    if a < b {
      assert OneAttempt(run, i, a, b - 1);
      CountStays(run, i, a, b - 1);
      assert run[b - 1 + 1].readers[i].wc == run[b - 1].readers[i].wc;
    }
  }

  lemma CountKept(run: seq<Sys>, i: nat, a: nat, b: nat)
    requires IsRun(run) && a <= b < |run| && OneAttempt(run, i, a, b)
    ensures run[b].readers[i].wc == run[a].readers[i].wc
  {
    forall k {:trigger run[k]} | a <= k < b ensures run[k + 1].readers[i].wc == run[k].readers[i].wc {
      StepAt(run, k);
      AttemptKept(run[k], run[k + 1], i);
    }
    CountStays(run, i, a, b);
  }

  lemma AttemptBegins(y: Sys, z: Sys, i: nat)
    requires Next(y, z) && i in y.readers && i in z.readers && y.readers[i].RStart? && Trying(z.readers[i])
    ensures z.readers[i].wc == y.s.count
  {
    if !WriterStep(y, z) {
      var j :| ReaderStep(y, z, j);
    }
  }

  lemma AttemptChecks(y: Sys, z: Sys, i: nat)
    requires Next(y, z) && i in y.readers && i in z.readers && Trying(y.readers[i]) && !Trying(z.readers[i])
    ensures y.readers[i].RCheck? &&
      if y.s.count < y.readers[i].wc + 16 then z.readers[i].RDone? && z.readers[i].res == y.readers[i].res
      else z.readers[i].RStart?
  {
    if !WriterStep(y, z) {
      var j :| ReaderStep(y, z, j);
    }
  }

  /**
    An attempt that begins in the step from state `a` and is over in the step from state `b` answers if and
    only if fewer than sixteen removes began between the two; otherwise the lookup tries again.
   */
  lemma AnswersUnlessOvertaken(run: seq<Sys>, i: nat, a: nat, b: nat)
    requires IsRun(run) && a < b && b + 1 < |run| && i in run[a].readers && run[a].readers[i].RStart?
    requires OneAttempt(run, i, a + 1, b) && i in run[b + 1].readers && !Trying(run[b + 1].readers[i])
    ensures if run[b].s.count < run[a].s.count + 16 then run[b + 1].readers[i].RDone? else run[b + 1].readers[i].RStart?
  {
    StepAt(run, a);
    AttemptBegins(run[a], run[a + 1], i);
    CountKept(run, i, a + 1, b);
    StepAt(run, b);
    AttemptChecks(run[b], run[b + 1], i);
  }

  // ---------- critnib_insert and critnib_remove ----------

  predicate Inserting(pc: Pc) {
    match pc
    case InsAllocLeaf => true
    case InsSetKey => true
    case InsSetValue => true
    case InsLoadRoot => true
    case InsDescend => true
    case InsPutLeaf => true
    case InsFreeLeaf1 => true
    case InsFreeLeaf2 => true
    case InsUpdate => true
    case InsAllocNode => true
    case InsClear => true
    case InsKid1 => true
    case InsKid2 => true
    case InsDepth => true
    case InsPath => true
    case InsPublish => true
    case InsDone => true
    case _ => false
  }

  /** The same operation with the same arguments, on the same map. */
  ghost predicate SameCall(w: Writer, x: Writer) {
    && x.key == w.key && x.v == w.v && x.update == w.update && x.base == w.base
    && (Inserting(x.pc) <==> Inserting(w.pc))
  }

  lemma FillLeafSame(s: Shared, w: Writer, t: Shared, x: Writer)
    requires WriterNext(s, w, t, x) && Part(w.pc) == 0 && w.pc != Idle
    ensures SameCall(w, x)
  {
  }

  lemma FillNodeSame(s: Shared, w: Writer, t: Shared, x: Writer)
    requires WriterNext(s, w, t, x) && Part(w.pc) == 1 && x.pc != Idle
    ensures SameCall(w, x)
  {
  }

  lemma FreeDueSame(s: Shared, w: Writer, t: Shared, x: Writer)
    requires WriterNext(s, w, t, x) && Part(w.pc) == 2
    ensures SameCall(w, x)
  {
  }

  lemma SearchSame(s: Shared, w: Writer, t: Shared, x: Writer)
    requires WriterNext(s, w, t, x) && (w.pc == RemDescend || w.pc == RemCount)
    ensures SameCall(w, x)
  {
  }

  lemma UnlinkingSame(s: Shared, w: Writer, t: Shared, x: Writer)
    requires WriterNext(s, w, t, x) && Part(w.pc) == 3 && w.pc != RemDescend && w.pc != RemCount && x.pc != Idle
    ensures SameCall(w, x)
  {
  }

  lemma WriterSame(s: Shared, w: Writer, t: Shared, x: Writer)
    requires WriterNext(s, w, t, x) && w.pc != Idle && x.pc != Idle
    ensures SameCall(w, x)
  {
    if Part(w.pc) == 0 {
      FillLeafSame(s, w, t, x);
    } else if Part(w.pc) == 1 {
      FillNodeSame(s, w, t, x);
    } else if Part(w.pc) == 2 {
      FreeDueSame(s, w, t, x);
    } else if w.pc == RemDescend || w.pc == RemCount {
      SearchSame(s, w, t, x);
    } else {
      UnlinkingSame(s, w, t, x);
    }
  }

  lemma StepSame(y: Sys, z: Sys)
    requires Next(y, z) && y.w.pc != Idle && z.w.pc != Idle
    ensures SameCall(y.w, z.w)
  {
    if WriterStep(y, z) { WriterSame(y.s, y.w, z.s, z.w); }
  }

  /** The lock is held by one operation in all states from `a` to `b`. */
  ghost predicate Busy(run: seq<Sys>, a: nat, b: nat)
    requires b < |run|
  {
    forall k {:trigger run[k]} | a <= k <= b :: run[k].w.pc != Idle
  }

  /** No step from `a` to `b` changes the call. */
  ghost predicate OneCall(run: seq<Sys>, a: nat, b: nat)
    requires b < |run|
  {
    forall k {:trigger run[k]} | a <= k < b :: SameCall(run[k].w, run[k + 1].w)
  }

  lemma {:induction false} OneCallSame(run: seq<Sys>, a: nat, b: nat)
    requires a <= b < |run| && OneCall(run, a, b)
    ensures SameCall(run[a].w, run[b].w)
  {
    if a < b {
      OneCallSame(run, a, b - 1);
      assert SameCall(run[b - 1].w, run[b - 1 + 1].w);
    }
  }

  lemma RunSame(run: seq<Sys>, a: nat, b: nat)
    requires IsRun(run) && a <= b < |run| && Busy(run, a, b)
    ensures SameCall(run[a].w, run[b].w)
  {
    forall k {:trigger run[k]} | a <= k < b ensures SameCall(run[k].w, run[k + 1].w) {
      StepAt(run, k);
      StepSame(run[k], run[k + 1]);
    }
    OneCallSame(run, a, b);
  }

  lemma CallBegins(y: Sys, z: Sys)
    requires Next(y, z) && y.w.pc == Idle && z.w.pc != Idle
    ensures z.s == y.s && z.w.base == Last(y.s.hist) && (z.w.pc == InsAllocLeaf || z.w.pc == RemStart)
  {
  }

  /** What `critnib_insert(key, v, update)` does to a map, by its return code. */
  ghost predicate InsertDoes(key: Key, v: nat, update: bool, before: Contents, code: Code, after: Contents) {
    match code
    case Ok => (update || key !in before) && after == before[key := v]
    case Exist => !update && key in before && after == before
    case NoMem => after == before
  }

  /** What `critnib_remove(key)` does to a map, by its result. */
  ghost predicate RemoveDoes(key: Key, before: Contents, res: nat, after: Contents) {
    after == before - {key} && res == if key in before then before[key] else 0
  }

  /**
    An operation that takes the lock in the step to state `a`, and is about to return in state `b`: an
    insert has changed the map as its code says, a remove as its result says, from the map that it found
    and for the arguments that it was called with.
   */
  lemma UpdatesAreMapOperations(run: seq<Sys>, a: nat, b: nat)
    requires IsRun(run) && 0 < a <= b < |run| && run[a - 1].w.pc == Idle && Busy(run, a, b)
    ensures var call, before, after := run[a].w, Last(run[a - 1].s.hist), Last(run[b].s.hist);
      && (call.pc == InsAllocLeaf || call.pc == RemStart)
      && (run[b].w.pc == InsDone ==>
        call.pc == InsAllocLeaf && InsertDoes(call.key, call.v, call.update, before, run[b].w.code, after))
      && (run[b].w.pc == RemDone ==> call.pc == RemStart && RemoveDoes(call.key, before, run[b].w.res, after))
  {
    StepAt(run, a - 1);
    CallBegins(run[a - 1], run[a]);
    RunSame(run, a, b);
    ResultIsInRegisters(run, b);
  }

  // ---------- when an insert runs out of memory ----------

  /** An allocation is due and the pool it looks into is empty. */
  ghost predicate PoolEmpty(y: Sys) {
    (y.w.pc == InsAllocLeaf && y.s.poolL == 0) || (y.w.pc == InsAllocNode && y.s.poolN == Null)
  }

  /** The operation is on its way to answer that there is no memory. */
  ghost predicate Failing(w: Writer) {
    || (w.pc == InsDone && w.code == NoMem)
    || ((w.pc == InsFreeLeaf1 || w.pc == InsFreeLeaf2) && w.after == ToNoMem)
  }

  lemma FailsEarly(s: Shared, w: Writer, t: Shared, x: Writer)
    requires WriterNext(s, w, t, x) && Part(w.pc) == 0 && w.pc != Idle && Failing(x) && !Failing(w)
    ensures w.pc == InsAllocLeaf && s.poolL == 0
  {
  }

  lemma FailsLate(s: Shared, w: Writer, t: Shared, x: Writer)
    requires WriterNext(s, w, t, x) && Part(w.pc) == 1 && Failing(x) && !Failing(w)
    ensures w.pc == InsAllocNode && s.poolN == Null
  {
  }

  lemma FailsHere(s: Shared, w: Writer, t: Shared, x: Writer)
    requires WriterNext(s, w, t, x) && w.pc != Idle && Failing(x) && !Failing(w)
    ensures (w.pc == InsAllocLeaf && s.poolL == 0) || (w.pc == InsAllocNode && s.poolN == Null)
  {
    if Part(w.pc) == 0 {
      FailsEarly(s, w, t, x);
    } else if Part(w.pc) == 1 {
      FailsLate(s, w, t, x);
    } else if Part(w.pc) == 2 {
      FreeDueSame(s, w, t, x);
    } else if w.pc == RemDescend || w.pc == RemCount {
      SearchSame(s, w, t, x);
    } else {
      UnlinkingSame(s, w, t, x);
    }
  }

  lemma StepFails(y: Sys, z: Sys)
    requires Next(y, z) && y.w.pc != Idle && Failing(z.w) && !Failing(y.w)
    ensures PoolEmpty(y)
  {
    if WriterStep(y, z) { FailsHere(y.s, y.w, z.s, z.w); }
  }

  lemma {:induction false} FirstFailing(run: seq<Sys>, a: nat, b: nat) returns (k: nat)
    requires a < b < |run| && !Failing(run[a].w) && Failing(run[b].w)
    ensures a <= k < b && !Failing(run[k].w) && Failing(run[k + 1].w)
  {
    k := b - 1;
    if Failing(run[k].w) { k := FirstFailing(run, a, k); }
  }

  /** An insert answers that there is no memory only if it found a reuse pool empty. */
  lemma NoMemOnlyIfPoolEmpty(run: seq<Sys>, a: nat, b: nat) returns (k: nat)
    requires IsRun(run) && a <= b < |run| && run[a].w.pc == InsAllocLeaf && Busy(run, a, b)
    requires run[b].w.pc == InsDone && run[b].w.code == NoMem
    ensures a <= k < b && PoolEmpty(run[k])
  {
    k := FirstFailing(run, a, b);
    StepAt(run, k);
    StepFails(run[k], run[k + 1]);
  }
}
