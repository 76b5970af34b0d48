/**
  What the callers of `lq_push` and `lq_pop` get, in terms of the items they pushed: under every
  interleaving, each push that succeeds puts its own item at one place of the order, no other push puts
  one there, and a push that has returned comes before every push that starts later.
 */
module QueueCalls {
  import opened QueueMachine
  import opened QueueTheorems

  /** `args` has each call of `lq_push` made so far, with the item it was given. */
  ghost predicate ArgsOf(run: seq<Sys>, b: nat, args: map<nat, Item>)
    requires b < |run|
  {
    && args.Keys == run[b].ws.Keys
    && forall a: nat, i | a < b && i !in run[a].ws && i in run[a + 1].ws ::
      i in args && run[a + 1].ws[i] == Reserve(args[i])
  }

  ghost predicate Taken(tickets: map<nat, nat>, n: nat) {
    exists i :: i in tickets && tickets[i] == n
  }

  /** Each ticket is one place in the order, each place has a ticket, and holds the item of that call. */
  ghost predicate OnePlaceEach(pushed: seq<Item>, args: map<nat, Item>, tickets: map<nat, nat>) {
    && (forall i | i in tickets :: i in args && tickets[i] < |pushed| && pushed[tickets[i]] == args[i])
    && (forall i, j | i in tickets && j in tickets && i != j :: tickets[i] != tickets[j])
    && (forall n: nat | n < |pushed| :: Taken(tickets, n))
  }

  /** Between its steps a call keeps its item; it has a ticket from its claim on. */
  ghost predicate CallOk(w: Writer, i: nat, args: map<nat, Item>, tickets: map<nat, nat>)
    requires i in args
  {
    match w
    case Check(item, _, n) => item == args[i] && i in tickets
    case Copy(item, _, n, _) => item == args[i] && i in tickets
    case Post(item, _, n) => item == args[i] && i in tickets
    case Announce(item, n) => item == args[i] && i in tickets
    case Done(ok) => ok <==> i in tickets
    case OutOfOrder => i in tickets
    case _ => w.item == args[i] && i !in tickets
  }

  ghost predicate CallsOk(ws: map<nat, Writer>, args: map<nat, Item>, tickets: map<nat, nat>) {
    args.Keys == ws.Keys && forall i | i in ws :: CallOk(ws[i], i, args, tickets)
  }

  /** The place of call `i` is before that of every call that `ws` does not have yet. */
  ghost predicate Before(ws: map<nat, Writer>, i: nat, tickets: map<nat, nat>) {
    i in tickets && forall j | j in tickets && j !in ws :: tickets[i] < tickets[j]
  }

  /** A push that had returned success before another began has the earlier place. */
  ghost predicate Fifo(run: seq<Sys>, b: nat, tickets: map<nat, nat>)
    requires b < |run|
  {
    forall a: nat, i | a <= b && i in run[a].ws && run[a].ws[i] == Done(true) :: Before(run[a].ws, i, tickets)
  }

  lemma Claimed(pushed: seq<Item>, args: map<nat, Item>, tickets: map<nat, nat>, i: nat)
    requires OnePlaceEach(pushed, args, tickets) && i in args && i !in tickets
    ensures OnePlaceEach(pushed + [args[i]], args, tickets[i := |pushed|])
  {
    var longer, more := pushed + [args[i]], tickets[i := |pushed|];
    forall n: nat | n < |longer| ensures Taken(more, n) {
      if n < |pushed| {
        assert Taken(tickets, n);
        var j :| j in tickets && tickets[j] == n;
        assert j in more && more[j] == n;
      } else {
        assert i in more && more[i] == n;
      }
    }
  }

  /** The step in which thread `i` claims the tail. */
  predicate Claims(y: Sys, z: Sys, i: nat) {
    i in y.ws && i in z.ws && y.ws[i].SwapTail? && z.ws[i].Check?
  }

  ghost function ArgsAfter(z: Sys, i: nat, args: map<nat, Item>): map<nat, Item> {
    if i !in args && i in z.ws && z.ws[i].Reserve? then args[i := z.ws[i].item] else args
  }

  ghost function TicketsAfter(y: Sys, z: Sys, i: nat, tickets: map<nat, nat>): map<nat, nat> {
    if Claims(y, z, i) then tickets[i := |y.s.pushed|] else tickets
  }

  lemma WriterCalls(y: Sys, z: Sys, i: nat, args: map<nat, Item>, tickets: map<nat, nat>)
    requires WriterStep(y, z, i) && CallsOk(y.ws, args, tickets) && (forall j | j in tickets :: j in args)
    ensures CallsOk(z.ws, ArgsAfter(z, i, args), TicketsAfter(y, z, i, tickets))
  {
  }

  lemma WriterPlaces(y: Sys, z: Sys, i: nat, args: map<nat, Item>, tickets: map<nat, nat>)
    requires WriterStep(y, z, i) && CallsOk(y.ws, args, tickets) && OnePlaceEach(y.s.pushed, args, tickets)
    ensures OnePlaceEach(z.s.pushed, ArgsAfter(z, i, args), TicketsAfter(y, z, i, tickets))
  {
    if Claims(y, z, i) {
      Claimed(y.s.pushed, args, tickets, i);
    }
  }

  lemma WriterJoins(y: Sys, z: Sys, i: nat)
    requires WriterStep(y, z, i)
    ensures z.ws.Keys == y.ws.Keys + {i} && (i !in y.ws ==> z.ws[i].Reserve?)
  {
  }

  lemma ArgsStep(run: seq<Sys>, b: nat, i: nat, args: map<nat, Item>)
    requires b + 1 < |run| && ArgsOf(run, b, args)
    requires run[b + 1].ws.Keys == run[b].ws.Keys + {i} && (i !in run[b].ws ==> run[b + 1].ws[i].Reserve?)
    ensures ArgsOf(run, b + 1, ArgsAfter(run[b + 1], i, args))
  {
    var more := ArgsAfter(run[b + 1], i, args);
    assert more.Keys == run[b + 1].ws.Keys;
    forall a: nat, j | a < b + 1 && j !in run[a].ws && j in run[a + 1].ws
      ensures j in more && run[a + 1].ws[j] == Reserve(more[j])
    {
      if a == b {
        assert j == i;
      } else {
        assert a < b && j in args;
      }
    }
  }

  lemma FifoStep(run: seq<Sys>, b: nat, i: nat, args: map<nat, Item>, tickets: map<nat, nat>)
    requires b + 1 < |run| && WriterStep(run[b], run[b + 1], i) && Fifo(run, b, tickets)
    requires CallsOk(run[b].ws, args, tickets) && OnePlaceEach(run[b].s.pushed, args, tickets)
    ensures Fifo(run, b + 1, TicketsAfter(run[b], run[b + 1], i, tickets))
  {
    var y, z := run[b], run[b + 1];
    var more := TicketsAfter(y, z, i, tickets);
    WriterCalls(y, z, i, args, tickets);
    forall a: nat, k | a <= b + 1 && k in run[a].ws && run[a].ws[k] == Done(true) ensures Before(run[a].ws, k, more) {
      if a <= b {
        assert Before(run[a].ws, k, tickets);
      }
    }
  }

  /** The ledger of calls and tickets is kept up to date in every run. */
  lemma {:induction false} Ledger(run: seq<Sys>, b: nat) returns (args: map<nat, Item>, tickets: map<nat, nat>)
    requires IsRun(run) && b < |run|
    ensures ArgsOf(run, b, args) && CallsOk(run[b].ws, args, tickets)
    ensures OnePlaceEach(run[b].s.pushed, args, tickets) && Fifo(run, b, tickets)
  {
    if b == 0 {
      args, tickets := map[], map[];
    } else {
      args, tickets := Ledger(run, b - 1);
      args, tickets := LedgerStep(run, b - 1, args, tickets);
    }
  }

  lemma LedgerStep(run: seq<Sys>, b: nat, args: map<nat, Item>, tickets: map<nat, nat>)
    returns (args': map<nat, Item>, tickets': map<nat, nat>)
    requires IsRun(run) && b + 1 < |run|
    requires ArgsOf(run, b, args) && CallsOk(run[b].ws, args, tickets)
    requires OnePlaceEach(run[b].s.pushed, args, tickets) && Fifo(run, b, tickets)
    ensures ArgsOf(run, b + 1, args') && CallsOk(run[b + 1].ws, args', tickets')
    ensures OnePlaceEach(run[b + 1].s.pushed, args', tickets') && Fifo(run, b + 1, tickets')
  {
    assert Step(run[b], run[b + 1]);
    if ReaderStep(run[b], run[b + 1]) {
      args', tickets' := args, tickets;
      ReaderKeepsCalls(run[b], run[b + 1]);
      ArgsLasts(run, b, args);
      FifoLasts(run, b, tickets);
    } else {
      var i :| WriterStep(run[b], run[b + 1], i);
      args', tickets' := ArgsAfter(run[b + 1], i, args), TicketsAfter(run[b], run[b + 1], i, tickets);
      WriterJoins(run[b], run[b + 1], i);
      ArgsStep(run, b, i, args);
      FifoStep(run, b, i, args, tickets);
      WriterCalls(run[b], run[b + 1], i, args, tickets);
      WriterPlaces(run[b], run[b + 1], i, args, tickets);
    }
  }

  lemma ReaderKeepsCalls(y: Sys, z: Sys)
    requires ReaderStep(y, z)
    ensures z.ws == y.ws && z.s.pushed == y.s.pushed
  {
  }

  lemma ArgsLasts(run: seq<Sys>, b: nat, args: map<nat, Item>)
    requires b + 1 < |run| && run[b + 1].ws == run[b].ws && ArgsOf(run, b, args)
    ensures ArgsOf(run, b + 1, args)
  {
    forall a: nat, i | a < b + 1 && i !in run[a].ws && i in run[a + 1].ws
      ensures i in args && run[a + 1].ws[i] == Reserve(args[i])
    {
      assert a < b;
    }
  }

  lemma FifoLasts(run: seq<Sys>, b: nat, tickets: map<nat, nat>)
    requires b + 1 < |run| && run[b + 1].ws == run[b].ws && Fifo(run, b, tickets)
    ensures Fifo(run, b + 1, tickets)
  {
    forall a: nat, k | a <= b + 1 && k in run[a].ws && run[a].ws[k] == Done(true)
      ensures Before(run[a].ws, k, tickets) {
      var c := if a <= b then a else b;
      assert run[c].ws == run[a].ws && Before(run[c].ws, k, tickets);
    }
  }

  // ---------- what lq_pop has returned ----------

  /** The step in which a call of `lq_pop` returns an item. */
  predicate PopsOne(y: Sys, z: Sys) {
    z.rd.Returned? && z.rd.ok && !y.rd.Returned?
  }

  /** The items that calls of `lq_pop` have returned, in order. */
  ghost function PopResults(run: seq<Sys>, b: nat): seq<Item>
    requires b < |run|
  {
    if b == 0 then [] else
      PopResults(run, b - 1) + if PopsOne(run[b - 1], run[b]) then [run[b].rd.buf] else []
  }

  lemma PopStep(y: Sys, z: Sys)
    requires Step(y, z)
    ensures z.s.popped == y.s.popped + if PopsOne(y, z) then [z.rd.buf] else []
  {
    if !ReaderStep(y, z) {
      var i :| WriterStep(y, z, i);
    }
  }

  lemma {:induction false} ResultsArePopped(run: seq<Sys>, b: nat)
    requires IsRun(run) && b < |run|
    ensures PopResults(run, b) == run[b].s.popped
  {
    if b > 0 {
      ResultsArePopped(run, b - 1);
      assert Step(run[b - 1], run[b - 1 + 1]);
      PopStep(run[b - 1], run[b]);
    }
  }

  /**
    The promise of the queue, from the items given to `lq_push`: at any time in any run there are `tickets`,
    one for each push that has returned success and none for a push that has returned failure, such that the
    items returned by `lq_pop` are, in order, the items of the first tickets. No two pushes share a ticket, no
    place is without one, and a push that had returned before another began comes first.
   */
  lemma PoppedAsPushed(run: seq<Sys>, b: nat) returns (args: map<nat, Item>, tickets: map<nat, nat>)
    requires IsRun(run) && b < |run|
    ensures ArgsOf(run, b, args)
    ensures forall i | i in run[b].ws && run[b].ws[i].Done? :: run[b].ws[i].ok <==> i in tickets
    ensures forall n: nat | n < |PopResults(run, b)| :: Taken(tickets, n)
    ensures forall i | i in tickets && tickets[i] < |PopResults(run, b)| ::
      i in args && PopResults(run, b)[tickets[i]] == args[i]
    ensures forall i, j | i in tickets && j in tickets && i != j :: tickets[i] != tickets[j]
    ensures Fifo(run, b, tickets)
  {
    args, tickets := Ledger(run, b);
    PoppedInOrder(run, b);
    ResultsArePopped(run, b);
    assert PopResults(run, b) <= run[b].s.pushed;
    assert CallsOk(run[b].ws, args, tickets) && OnePlaceEach(run[b].s.pushed, args, tickets);
    forall i | i in run[b].ws && run[b].ws[i].Done? ensures run[b].ws[i].ok <==> i in tickets {
      assert CallOk(run[b].ws[i], i, args, tickets);
    }
  }
}
