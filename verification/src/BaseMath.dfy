/** Rounding up to multiples, and the size classes. */
module BaseMath {
  import opened Common
  import opened Arith

  const QUANTUM: nat := 16
  const PAGE: nat := 4096
  const HUGEPAGE: nat := 0x20_0000

  /** `ALIGNMENT_CEILING`: up to a multiple of `a`. */
  function Ceil(s: nat, a: nat): nat
    requires a > 0
  {
    if s == 0 then 0 else if s <= a then a else a + Ceil(s - a, a)
  }

  /** The least multiple of `a` that is not below `s`. */
  lemma {:induction false} CeilLeast(s: nat, a: nat)
    requires a > 0
    ensures Ceil(s, a) % a == 0 && s <= Ceil(s, a) < s + a
  {
    MulMod(0, a);
    MulMod(1, a);
    if s > a {
      CeilLeast(s - a, a);
      AddMod(a, Ceil(s - a, a), a);
    }
  }

  /** A multiple in the right range is the one. */
  lemma CeilUnique(s: nat, a: nat, r: nat)
    requires a > 0 && r % a == 0 && s <= r < s + a
    ensures Ceil(s, a) == r
  {
    CeilLeast(s, a);
    var p, q := Ceil(s, a) / a, r / a;
    ModLe(Ceil(s, a), a);
    ModLe(r, a);
    Dist(p, q, a);
    Dist(q, p, a);
    if p < q { MulGe(q - p, a); } else if q < p { MulGe(p - q, a); }
  }

  lemma CeilMono(s: nat, t: nat, a: nat)
    requires a > 0 && s <= t
    ensures Ceil(s, a) <= Ceil(t, a)
  {
    CeilLeast(s, a);
    CeilLeast(t, a);
    if t < s + a && Ceil(s, a) >= t { CeilUnique(t, a, Ceil(s, a)); }
  }

  /** A power of two that is a multiple of the quantum: one of it and the huge page is a multiple of the other. */
  lemma AlignmentKinds(k: nat)
    requires k >= 4
    ensures Pow2(k) % QUANTUM == 0 && (if k <= 21 then HUGEPAGE % Pow2(k) == 0 else Pow2(k) % HUGEPAGE == 0)
  {
    assert Pow2(4) == 16 && Pow2(21) == 0x20_0000 by {
      assert Pow2(4) == 2 * Pow2(3) && Pow2(3) == 8;
      Pow2Add(4, 4);
      Pow2Add(8, 8);
      Pow2Add(16, 4);
      Pow2Add(1, 20);
    }
    Pow2Add(k - 4, 4);
    MulMod(Pow2(k - 4), Pow2(4));
    if k <= 21 {
      Pow2Add(21 - k, k);
      MulMod(Pow2(21 - k), Pow2(k));
    } else {
      Pow2Add(k - 21, 21);
      MulMod(Pow2(k - 21), Pow2(21));
    }
  }

  /** Rounding moves with a multiple. */
  lemma CeilShift(start: nat, s: nat, a: nat)
    requires a > 0 && start % a == 0
    ensures Ceil(start + s, a) == start + Ceil(s, a)
  {
    CeilLeast(s, a);
    AddMod(start, Ceil(s, a), a);
    CeilUnique(start + s, a, start + Ceil(s, a));
  }

  /**
    The gap that `base_block_alloc` allows for, computed as if the block began at zero, is enough for
    any block that begins at a multiple of a huge page, whatever the alignment.
   */
  lemma GapFits(start: nat, header: nat, k: nat)
    requires k >= 4 && start % HUGEPAGE == 0 && 0 < header <= HUGEPAGE
    ensures Ceil(start + header, Pow2(k)) - (start + header) <= Ceil(header, Pow2(k)) - header
  {
    var a := Pow2(k);
    AlignmentKinds(k);
    CeilLeast(header, a);
    if k <= 21 {
      ModTrans(start, HUGEPAGE, a);
      CeilShift(start, header, a);
    } else {
      GapFitsWide(start, header, a);
    }
  }

  lemma GapFitsWide(start: nat, header: nat, a: nat)
    requires a > 0 && a % HUGEPAGE == 0 && start % HUGEPAGE == 0 && 0 < header <= HUGEPAGE
    ensures Ceil(start + header, a) - (start + header) <= Ceil(header, a) - header
  {
    var j, base, rest := a / HUGEPAGE, start / a * a, start % a;
    ModLe(start, a);
    ModLe(a, HUGEPAGE);
    MulGe(j, HUGEPAGE);
    MulMod(0, a);
    CeilUnique(header, a, a);
    MulMod(start / a, a);
    assert rest % HUGEPAGE == 0 by {
      ModTrans(base, a, HUGEPAGE);
      SubMod(start, base, HUGEPAGE);
    }
    ModLe(rest, HUGEPAGE);
    RoomLeft(rest / HUGEPAGE, j, HUGEPAGE);
    AddMod(base, a, a);
    CeilUnique(start + header, a, base + a);
  }

  lemma SubMod(x: nat, y: nat, a: nat)
    requires a > 0 && y <= x && x % a == 0 && y % a == 0
    ensures (x - y) % a == 0
  {
    ModLe(x, a);
    ModLe(y, a);
    Dist(x / a, y / a, a);
    var d := x / a - y / a;
    MulMod(d, a);
  }

  /** Two multiples of the quantum are a quantum apart. */
  lemma QuantumApart(x: nat, y: nat)
    requires x % QUANTUM == 0 && y % QUANTUM == 0 && x < y
    ensures x + QUANTUM <= y
  {
  }

  lemma RoomLeft(p: nat, j: nat, h: nat)
    requires h > 0 && p * h < j * h
    ensures p * h + h <= j * h
  {
    Dist(j, p, h);
    if p >= j { MulMono(j, p, h); }
    MulGe(j - p, h);
  }

  /** The smallest alignment in use is the quantum. */
  lemma QuantumCeil(k: nat)
    ensures Ceil(Pow2(k), QUANTUM) == Pow2(Max(k, 4)) && Pow2(4) == QUANTUM
  {
    assert Pow2(4) == 2 * Pow2(3) && Pow2(3) == 2 * Pow2(2) && Pow2(2) == 2 * Pow2(1) && Pow2(1) == 2 && Pow2(0) == 1;
    if k >= 4 {
      AlignmentKinds(k);
      CeilUnique(Pow2(k), QUANTUM, Pow2(k));
    }
  }

  /**
    `base_t`, aligned to a cache line, fits behind the header of its block, which was sized for an
    alignment of one quantum: header and `base_t` are within a huge page, and no block is smaller.
   */
  lemma FirstFits(start: nat, header: nat, size: nat, blockSize: nat, k: nat)
    requires 4 <= k <= 21 && start % HUGEPAGE == 0 && blockSize >= HUGEPAGE
    requires Ceil(header, Pow2(k)) + Ceil(size, Pow2(k)) <= HUGEPAGE
    ensures Ceil(start + header, Pow2(k)) + Ceil(size, Pow2(k)) <= start + blockSize
  {
    AlignmentKinds(k);
    ModTrans(start, HUGEPAGE, Pow2(k));
    CeilShift(start, header, Pow2(k));
  }

  // ---------- size classes ----------

  /** `sz_size2index`: the first class that is not below `s`. */
  function Size2Index(classes: seq<nat>, s: nat, i: nat := 0): (r: nat)
    requires i <= |classes|
    ensures i <= r <= |classes| && (forall j | i <= j < r :: classes[j] < s) && (r < |classes| ==> classes[r] >= s)
    decreases |classes| - i
  {
    if i == |classes| || classes[i] >= s then i else Size2Index(classes, s, i + 1)
  }

  /** Classes grow, and the first is no larger than a quantum. */
  predicate ClassesOk(classes: seq<nat>) {
    |classes| > 0 && classes[0] <= QUANTUM && forall i, j | 0 <= i < j < |classes| :: classes[i] < classes[j]
  }

  /** The largest class that does not exceed `b`. */
  function FloorIndex(classes: seq<nat>, b: nat): (i: nat)
    requires ClassesOk(classes) && b >= QUANTUM
    ensures i < |classes| && classes[i] <= b && forall j | i < j < |classes| :: classes[j] > b
  {
    Size2Index(classes, b + 1) - 1
  }
}
