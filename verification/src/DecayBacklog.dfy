/** The backlog of unpurged pages and its weighted sum. */
module DecayBacklog {
  import opened Arith

  /** `SMOOTHSTEP_NSTEPS`, and two to the power of `SMOOTHSTEP_BFP`. */
  const NSTEPS: nat := 200
  const SCALE: nat := 0x100_0000

  /** The first `n` terms of the weighted sum. */
  function Dot(b: seq<nat>, h: seq<nat>, n: nat): nat
    requires n <= |b| && n <= |h|
  {
    if n == 0 then 0 else Dot(b, h, n - 1) + b[n - 1] * h[n - 1]
  }

  ghost predicate Growing(h: seq<nat>) {
    |h| == NSTEPS && forall i, j | 0 <= i <= j < |h| :: h[i] <= h[j]
  }

  /** The backlog `k` steps later, if no page is added. */
  ghost function Advanced(b: seq<nat>, k: nat): seq<nat>
    requires k <= |b|
  {
    b[k..] + seq(k, _ => 0)
  }

  lemma {:induction false} DotPrefix(b: seq<nat>, c: seq<nat>, h: seq<nat>, n: nat)
    requires n <= |b| && n <= |c| && n <= |h| && forall i | 0 <= i < n :: b[i] == c[i]
    ensures Dot(b, h, n) == Dot(c, h, n)
  {
    if n > 0 { DotPrefix(b, c, h, n - 1); }
  }

  lemma {:induction false} DotZeros(b: seq<nat>, h: seq<nat>, m: nat, n: nat)
    requires m <= n <= |b| && n <= |h| && forall i | m <= i < n :: b[i] == 0
    ensures Dot(b, h, n) == Dot(b, h, m)
  {
    if m < n { DotZeros(b, h, m, n - 1); }
  }

  /** A backlog of zeros sums to nothing, and each entry adds its own weight for every page in it. */
  lemma {:induction false} DotSet(b: seq<nat>, h: seq<nat>, n: nat, i: nat, x: nat)
    requires i < n <= |b| && n <= |h|
    ensures (forall j | 0 <= j < n :: b[j] == 0) ==> Dot(b, h, n) == 0
    ensures Dot(b[i := x], h, n) + b[i] * h[i] == Dot(b, h, n) + x * h[i]
  {
    if forall j | 0 <= j < n :: b[j] == 0 { DotZeros(b, h, 0, n); }
    if i == n - 1 {
      DotPrefix(b[i := x], b, h, n - 1);
    } else {
      DotSet(b, h, n - 1, i, x);
    }
  }

  /** The sum after advancing is that of the tail against the first weights. */
  lemma AdvancedDot(b: seq<nat>, h: seq<nat>, k: nat)
    requires k <= |b| <= |h|
    ensures |Advanced(b, k)| == |b| && Dot(Advanced(b, k), h, |b|) == Dot(b[k..], h, |b| - k)
  {
    DotZeros(Advanced(b, k), h, |b| - k, |b|);
    DotPrefix(Advanced(b, k), b[k..], h, |b| - k);
  }

  /** With growing weights, a step later the sum is no larger. */
  lemma {:induction false} DotStep(b: seq<nat>, h: seq<nat>, n: nat)
    requires 1 <= n <= |b| && n <= |h| && forall i, j | 0 <= i <= j < |h| :: h[i] <= h[j]
    ensures Dot(b[1..], h, n - 1) <= Dot(b, h, n)
  {
    if n > 1 {
      DotStep(b, h, n - 1);
      assert b[1..][n - 2] == b[n - 1];
      assert b[n - 1] * h[n - 2] <= b[n - 1] * h[n - 1] by { MulMono(h[n - 2], h[n - 1], b[n - 1]); }
    }
  }

  /** What purging would drop to after `k` steps never grows with `k`. */
  lemma {:induction false} DotMonotone(b: seq<nat>, h: seq<nat>, j: nat, k: nat)
    requires j <= k <= |b| == |h| && forall x, y | 0 <= x <= y < |h| :: h[x] <= h[y]
    ensures Dot(b[k..], h, |b| - k) <= Dot(b[j..], h, |b| - j)
    decreases k - j
  {
    if j < k {
      DotMonotone(b, h, j + 1, k);
      DotStep(b[j..], h, |b| - j);
      assert b[j..][1..] == b[j + 1..];
    }
  }

  /** Pages to purge within `k` steps, before the final shift: the drop of the weighted sum. */
  ghost function Drop(b: seq<nat>, h: seq<nat>, k: nat): int
    requires k <= |b| == |h|
  {
    Dot(b, h, |b|) - Dot(Advanced(b, k), h, |b|)
  }

  /** The prediction never goes down with a longer interval. */
  lemma DropMonotone(b: seq<nat>, h: seq<nat>, j: nat, k: nat)
    requires j <= k <= |b| == |h| && forall x, y | 0 <= x <= y < |h| :: h[x] <= h[y]
    ensures 0 <= Drop(b, h, j) <= Drop(b, h, k) && Drop(b, h, j) / SCALE <= Drop(b, h, k) / SCALE
  {
    AdvancedDot(b, h, j);
    AdvancedDot(b, h, k);
    DotMonotone(b, h, j, k);
    DotMonotone(b, h, 0, j);
    assert b[0..] == b;
  }

  /** The pages that would be purged within `k` steps. */
  ghost function Npurge(b: seq<nat>, h: seq<nat>, k: nat): int
    requires k <= |b| == |h|
  {
    Drop(b, h, k) / SCALE
  }

  /**
    Steps `lb` and `ub`, from `first` on, for a threshold: already `first` exceeds it, or no number of
    steps reaches it, or it is crossed between the two, and then they are close in pages or in steps.
   */
  ghost predicate Crossing(b: seq<nat>, h: seq<nat>, threshold: nat, first: nat, lb: nat, ub: nat)
    requires |b| == |h| == NSTEPS
  {
    if lb == ub == first then
      forall k | first <= k <= NSTEPS :: Npurge(b, h, k) > threshold
    else if lb == ub then
      lb == NSTEPS && forall k | 0 <= k <= NSTEPS :: Npurge(b, h, k) < threshold
    else
      && first <= lb < ub <= NSTEPS
      && (forall k | 0 <= k <= lb :: Npurge(b, h, k) <= threshold)
      && (forall k | ub <= k <= NSTEPS :: threshold <= Npurge(b, h, k))
      && (Npurge(b, h, ub) <= Npurge(b, h, lb) + threshold || ub <= lb + 2)
  }

  /** Looking at the two ends is enough. */
  lemma CrossingEnds(b: seq<nat>, h: seq<nat>, threshold: nat, first: nat, lb: nat, ub: nat)
    requires |b| == NSTEPS && Growing(h) && first + 2 <= NSTEPS && first <= lb <= ub <= NSTEPS
    requires lb == ub ==>
      if lb == first then Npurge(b, h, lb) > threshold else lb == NSTEPS && Npurge(b, h, lb) < threshold
    requires lb < ub ==> Npurge(b, h, lb) <= threshold <= Npurge(b, h, ub)
    requires lb < ub ==> Npurge(b, h, ub) <= Npurge(b, h, lb) + threshold || ub <= lb + 2
    ensures Crossing(b, h, threshold, first, lb, ub)
  {
    forall k: nat | k <= NSTEPS
      ensures (k <= lb ==> Npurge(b, h, k) <= Npurge(b, h, lb)) && (ub <= k ==> Npurge(b, h, ub) <= Npurge(b, h, k))
    {
      if k <= lb { DropMonotone(b, h, k, lb); }
      if ub <= k { DropMonotone(b, h, ub, k); }
    }
  }

  /** One turn of the second loop of `decay_npurge_after_interval`. */
  lemma DropStep(b: seq<nat>, h: seq<nat>, k: nat, i: nat, sum: int)
    requires k <= i < |b| == |h| && h[i - k] <= h[i] && sum + Dot(b[k..], h, i - k) == Dot(b, h, i)
    ensures b[i] * (h[i] - h[i - k]) >= 0 &&
      sum + b[i] * (h[i] - h[i - k]) + Dot(b[k..], h, i + 1 - k) == Dot(b, h, i + 1)
  {
    assert b[k..][i - k] == b[i];
    var x, y, z := b[i], h[i], h[i - k];
    assert x * (y - z) == x * y - x * z;
  }

  lemma Pow2Large(n: nat)
    requires n >= 7
    ensures Pow2(n) >= 128
  {
    Pow2Add(n - 7, 7);
    assert Pow2(7) == 128 by { assert Pow2(5) == 32; }
    MulGe(Pow2(n - 7), 128);
  }

  /** Each turn halves the bracket: there are few of them. */
  lemma TurnsLeft(width: nat, width': nat, n: nat)
    requires width >= 3 && width' >= 1 && 2 * width' <= width + 1 && (width - 1) * Pow2(n) <= NSTEPS - 3
    ensures (width' - 1) * Pow2(n + 1) <= NSTEPS - 3 && n < 7
  {
    var p := Pow2(n);
    assert 2 * (width' - 1) <= width - 1;
    MulMono(2 * (width' - 1), width - 1, p);
    assert (width' - 1) * (2 * p) == (2 * (width' - 1)) * p;
    MulMono(2, width - 1, p);
    if n >= 7 { Pow2Large(n); }
  }
}
