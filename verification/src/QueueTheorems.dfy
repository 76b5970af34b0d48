/** Theorems about every run of the ring queue, for any number of writers. */
module QueueTheorems {
  import opened QueueMachine
  import opened QueueInvariant
  import opened QueueProof

  lemma InitOk(y: Sys)
    requires Init(y)
    ensures Inv(y)
  {
    assert Those(y.ws, Failing) == {} && Those(y.ws, Claiming) == {} && Those(y.ws, Pending) == {} &&
      Those(y.ws, Succeeded) == {};
  }

  lemma StepKeeps(y: Sys, z: Sys)
    requires Inv(y) && Step(y, z)
    ensures Inv(z)
  {
    if ReaderStep(y, z) {
      ReaderKeeps(y, z);
    } else {
      var i :| WriterStep(y, z, i);
      WriterKeeps(y, z, i);
    }
  }

  lemma {:induction false} RunOk(run: seq<Sys>, m: nat)
    requires IsRun(run) && m < |run|
    ensures Inv(run[m])
  {
    if m == 0 {
      InitOk(run[0]);
    } else {
      RunOk(run, m - 1);
      assert Step(run[m - 1], run[m - 1 + 1]);
      StepKeeps(run[m - 1], run[m]);
    }
  }

  /** The assertion "read out of order" never fires. */
  lemma NeverOutOfOrder(run: seq<Sys>, m: nat, i: nat)
    requires IsRun(run) && m < |run| && i in run[m].ws
    ensures !run[m].ws[i].OutOfOrder?
  {
    RunOk(run, m);
    assert WriterOk(run[m], run[m].ws[i]);
  }

  /** Items are popped whole, once each, in the order in which their writers claimed the tail. */
  lemma PoppedInOrder(run: seq<Sys>, m: nat)
    requires IsRun(run) && m < |run|
    ensures run[m].s.popped <= run[m].s.pushed
  {
    RunOk(run, m);
  }

  /**
    Neither counter wraps: `used` overshoots by no more than the writers giving up, `unavailableRead` by the
    reader alone.
   */
  lemma CountersNeverWrap(run: seq<Sys>, m: nat)
    requires IsRun(run) && m < |run|
    ensures 0 <= run[m].s.used <= run[m].s.size + Fails(run[m].ws)
    ensures 0 <= run[m].s.unavailable <= run[m].s.size + 1
  {
    RunOk(run, m);
    var y := run[m];
    assert CountsOk(y) && OrderOk(y);
  }

  ghost predicate Quiet(y: Sys) {
    (y.rd.AtRest? || y.rd.TakeOne? || y.rd.Returned?) && forall i | i in y.ws :: y.ws[i].Reserve? || y.ws[i].Done?
  }

  /** When no call is under way, both counters give the number of successful pushes that have not been popped. */
  lemma QuietCounters(run: seq<Sys>, m: nat)
    requires IsRun(run) && m < |run| && Quiet(run[m])
    ensures run[m].s.used == run[m].s.size - run[m].s.unavailable == Successes(run[m].ws) - |run[m].s.popped|
  {
    RunOk(run, m);
    var y := run[m];
    assert Those(y.ws, Failing) == {} && Those(y.ws, Claiming) == {} && Those(y.ws, Pending) == {};
  }

  /** No step of a writer touches an entry that holds an item not read yet. */
  lemma UnreadUntouched(run: seq<Sys>, m: nat, i: nat, e: nat)
    requires IsRun(run) && m + 1 < |run| && WriterStep(run[m], run[m + 1], i)
    requires e < |run[m].s.entries| && run[m].s.entries[e].state == Ready
    ensures e < |run[m + 1].s.entries| && run[m + 1].s.entries[e] == run[m].s.entries[e]
  {
    RunOk(run, m);
    WriterSpares(run[m], run[m + 1], i, e);
  }

  lemma WriterSpares(y: Sys, z: Sys, i: nat, e: nat)
    requires Inv(y) && WriterStep(y, z, i) && e < |y.s.entries| && y.s.entries[e].state == Ready
    ensures e < |z.s.entries| && z.s.entries[e] == y.s.entries[e]
  {
    if i in y.ws && Writing(y.ws[i]) { OwnEntry(y, i); }
  }

  /**
    A pop that succeeds returns the item that was next, complete; one that finds the next item unfinished
    leaves it in place.
   */
  lemma PopReturnsNext(run: seq<Sys>, m: nat)
    requires IsRun(run) && m + 1 < |run| && ReaderStep(run[m], run[m + 1]) && run[m + 1].rd.Returned? &&
      !run[m].rd.Returned?
    ensures var y, z := run[m].s, run[m + 1].s;
      if run[m + 1].rd.ok then
        |y.popped| < |y.pushed| && run[m + 1].rd.buf == y.pushed[|y.popped|] &&
          z.popped == y.popped + [run[m + 1].rd.buf]
      else z.popped == y.popped
  {
    RunOk(run, m);
    assert ReaderOk(run[m]);
  }
}
