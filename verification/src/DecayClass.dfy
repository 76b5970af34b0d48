/** `arena_decay_t`: how many pages wait to be purged, and when the background thread looks again. */
module DecayClass {
  import opened Common
  import opened Arith
  import opened DecayBacklog

  /** `BACKGROUND_THREAD_NPAGES_THRESHOLD` and `BACKGROUND_THREAD_MIN_INTERVAL_NS` */
  const THRESHOLD: nat := 1024
  const MIN_INTERVAL: nat := 100_000_000

  datatype Sleep = Indefinite | For(ns: nat)

  /** The middle of two numbers of steps, in units of `x`. */
  function Middle(x: nat, l: nat, u: nat): nat {
    x * (u + l) / 2
  }

  lemma MiddleSame(x: nat, n: nat)
    ensures Middle(x, n, n) == x * n
  {
    assert x * (n + n) == 2 * (x * n);
  }

  class Decay {
    const steps: seq<nat>
    const backlog: array<nat>
    var nunpurged: nat

    ghost predicate Valid()
      reads this, backlog
    {
      backlog.Length == NSTEPS && Growing(steps)
    }

    constructor (h: seq<nat>)
      requires Growing(h)
      ensures Valid() && steps == h && fresh(backlog) && nunpurged == 0 && backlog[..] == seq(NSTEPS, _ => 0)
    {
      steps := h;
      backlog := new nat[NSTEPS](_ => 0);
      nunpurged := 0;
    }

    /** `arena_decay_backlog_npages_limit` */
    method NpagesLimit() returns (limit: nat)
      requires Valid()
      ensures limit == Dot(backlog[..], steps, NSTEPS) / SCALE
    {
      var sum := 0;
      for i := 0 to NSTEPS
        invariant sum == Dot(backlog[..], steps, i)
      {
        sum := sum + backlog[i] * steps[i];
      }
      limit := sum / SCALE;
    }

    /** `arena_decay_backlog_update`: the backlog moves on, and the pages added since come last. */
    method BacklogUpdate(nadvance: nat, currentNpages: nat)
      requires Valid() && nadvance > 0
      modifies backlog
      ensures var k := if nadvance >= NSTEPS then NSTEPS else nadvance;
        backlog[..] == Advanced(old(backlog[..]),
          k)[NSTEPS - 1 := if currentNpages > nunpurged then currentNpages - nunpurged else 0]
      ensures currentNpages <= nunpurged ==>
        backlog[..] == Advanced(old(backlog[..]), if nadvance >= NSTEPS then NSTEPS else nadvance)
      ensures forall i | 0 <= i < NSTEPS - 1 ::
        backlog[i] == if i + nadvance < NSTEPS then old(backlog[i + nadvance]) else 0
      ensures backlog[NSTEPS - 1] == if currentNpages > nunpurged then currentNpages - nunpurged else 0
    {
      var n := NSTEPS;
      if nadvance >= n {
        forall i | 0 <= i < n - 1 { backlog[i] := 0; }
      } else {
        forall i | 0 <= i < n - nadvance { backlog[i] := backlog[i + nadvance]; }
        if nadvance > 1 {
          forall i | n - nadvance <= i < n - 1 { backlog[i] := 0; }
        }
      }
      backlog[n - 1] := if currentNpages > nunpurged then currentNpages - nunpurged else 0;
    }

    /** `decay_npurge_after_interval`: what the limit loses in `interval` steps without new pages. */
    method NpurgeAfter(interval: nat) returns (npurge: nat)
      requires Valid() && interval <= NSTEPS
      ensures npurge == Npurge(backlog[..], steps, interval)
    {
      var sum: nat, i: nat := 0, 0;
      ghost var b := backlog[..];
      while i < interval
        invariant i <= interval && sum == Dot(b, steps, i)
      {
        sum := sum + backlog[i] * steps[i];
        i := i + 1;
      }
      while i < NSTEPS
        invariant interval <= i <= NSTEPS && sum + Dot(b[interval..], steps, i - interval) == Dot(b, steps, i)
      {
        assert steps[i - interval] <= steps[i];
        DropStep(b, steps, interval, i, sum);
        sum := sum + backlog[i] * (steps[i] - steps[i - interval]);
        i := i + 1;
      }
      AdvancedDot(b, steps, interval);
      npurge := sum / SCALE;
    }

    /** The binary search: the threshold stays between the two ends, and the original's bound on the turns holds. */
    method Bracket(lb0: nat, npurgeLb0: nat, npurgeUb0: nat) returns (lb: nat, ub: nat)
      requires Valid() && 2 <= lb0 && lb0 + 2 <= NSTEPS
      requires npurgeLb0 == Npurge(backlog[..], steps, lb0) && npurgeLb0 <= THRESHOLD
      requires npurgeUb0 == Npurge(backlog[..], steps, NSTEPS) && npurgeUb0 >= THRESHOLD
      ensures lb0 <= lb < ub <= NSTEPS
      ensures Npurge(backlog[..], steps, lb) <= THRESHOLD <= Npurge(backlog[..], steps, ub)
      ensures Npurge(backlog[..], steps, ub) <= Npurge(backlog[..], steps, lb) + THRESHOLD || ub <= lb + 2
    {
      var npurgeLb, npurgeUb := npurgeLb0, npurgeUb0;
      lb, ub := lb0, NSTEPS;
      var search := 0;
      while npurgeLb + THRESHOLD < npurgeUb && lb + 2 < ub
        invariant lb0 <= lb < ub <= NSTEPS
        invariant npurgeLb == Npurge(backlog[..], steps, lb) <= THRESHOLD
        invariant npurgeUb == Npurge(backlog[..], steps, ub) >= THRESHOLD
        invariant (ub - lb - 1) * Pow2(search) <= NSTEPS - 3
        decreases ub - lb
      {
        var target := (lb + ub) / 2;
        var npurge := NpurgeAfter(target);
        ghost var width := ub - lb;
        if npurge > THRESHOLD {
          ub, npurgeUb := target, npurge;
        } else {
          lb, npurgeLb := target, npurge;
        }
        TurnsLeft(width, ub - lb, search);
        assert search < 7 + 1;
        search := search + 1;
      }
    }

    /** The part of `arena_decay_compute_purge_interval_impl` that looks at the backlog. */
    method Search(intervalNs: nat, first: nat) returns (interval: nat, ghost lb: nat, ghost ub: nat)
      requires Valid() && 2 <= first && first + 2 <= NSTEPS
      ensures lb <= ub <= NSTEPS && interval == Middle(intervalNs, lb, ub)
      ensures Crossing(backlog[..], steps, THRESHOLD, first, lb, ub)
    {
      lb, ub := first, first;
      var npurgeLb := NpurgeAfter(first);
      if npurgeLb > THRESHOLD {
        interval := intervalNs * first;
      } else {
        var npurgeUb := NpurgeAfter(NSTEPS);
        if npurgeUb < THRESHOLD {
          interval := intervalNs * NSTEPS;
          lb, ub := NSTEPS, NSTEPS;
        } else {
          var l, u := Bracket(first, npurgeLb, npurgeUb);
          interval := intervalNs * (u + l) / 2;
          lb, ub := l, u;
        }
      }
      CrossingEnds(backlog[..], steps, THRESHOLD, first, lb, ub);
      MiddleSame(intervalNs, lb);
    }

    /** The fewest steps that are worth a sleep: two, or as many as make the minimum interval. */
    static function FirstSteps(intervalNs: nat): nat
      requires intervalNs > 0
    {
      Max(2, MIN_INTERVAL / intervalNs)
    }

    /** No more steps than fit into the minimum interval, unless fewer than two do. */
    static lemma FirstStepsFit(intervalNs: nat)
      requires intervalNs > 0
      ensures FirstSteps(intervalNs) >= 2 && 100_000_000 < (FirstSteps(intervalNs) + 1) * intervalNs
      ensures FirstSteps(intervalNs) > 2 ==> FirstSteps(intervalNs) * intervalNs <= 100_000_000
    {
      var q: nat := MIN_INTERVAL / intervalNs;
      assert q * intervalNs <= MIN_INTERVAL < (q + 1) * intervalNs;
      if q < 2 { MulMono(q + 1, 3, intervalNs); }
    }

    /** The minimum interval is as long as all steps take, or as all but the last two. */
    static predicate TooShort(intervalNs: nat)
      requires intervalNs > 0
    {
      intervalNs * NSTEPS <= MIN_INTERVAL || FirstSteps(intervalNs) + 2 > NSTEPS
    }

    /**
      `arena_decay_compute_purge_interval_impl` with the mutex held: the sleep is the middle of steps
      `lb` and `ub`, and no less than the minimum.
     */
    method ComputeInterval(decayTime: int, intervalNs: nat, npages: nat)
        returns (sleep: Sleep, ghost lb: nat, ghost ub: nat)
      requires Valid() && intervalNs > 0
      ensures sleep.Indefinite? <==> decayTime <= 0 || (npages == 0 && forall i | 0 <= i < NSTEPS :: backlog[i] == 0)
      ensures sleep.For? ==> lb <= ub <= NSTEPS && sleep.ns == Max(MIN_INTERVAL, Middle(intervalNs, lb, ub))
      ensures sleep.For? ==> var middle := intervalNs * (lb + ub) / 2;
        sleep.ns == if middle < 100_000_000 then 100_000_000 else middle
      ensures sleep.For? && npages <= THRESHOLD ==> lb == ub == NSTEPS
      ensures sleep.For? && npages > THRESHOLD && TooShort(intervalNs) ==> sleep.ns == MIN_INTERVAL
      ensures sleep.For? && npages > THRESHOLD && intervalNs * NSTEPS <= 100_000_000 ==> sleep.ns == 100_000_000
      ensures sleep.For? && npages > THRESHOLD && 100_000_000 / intervalNs + 2 > NSTEPS ==> sleep.ns == 100_000_000
      ensures sleep.For? && npages > THRESHOLD && !TooShort(intervalNs) ==>
        Crossing(backlog[..], steps, THRESHOLD, FirstSteps(intervalNs), lb, ub)
    {
      lb, ub := 0, 0;
      if decayTime <= 0 { return Indefinite, 0, 0; }
      if npages == 0 {
        var i := 0;
        while i < NSTEPS && backlog[i] == 0
          invariant i <= NSTEPS && forall j | 0 <= j < i :: backlog[j] == 0
        {
          i := i + 1;
        }
        if i == NSTEPS { return Indefinite, 0, 0; }
      }
      var interval: nat := 0;
      if npages <= THRESHOLD {
        interval := intervalNs * NSTEPS;
        lb, ub := NSTEPS, NSTEPS;
      } else {
        var first := if MIN_INTERVAL / intervalNs < 2 then 2 else MIN_INTERVAL / intervalNs;
        if intervalNs * NSTEPS <= MIN_INTERVAL || first + 2 > NSTEPS {
          interval := MIN_INTERVAL;
        } else {
          interval, lb, ub := Search(intervalNs, first);
        }
      }
      sleep := For(Max(MIN_INTERVAL, interval));
      MiddleSame(intervalNs, lb);
    }
  }
}
