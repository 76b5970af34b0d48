/**
  The word operations of a critnib on 64-bit unsigned words, and the operations on nibble strings
  that stand for them in the other modules. Shifts of an unsigned word are defined by division and
  multiplication modulo 2^64 (section 6.5.7 of ISO C11); bit `i` of a word is its quotient by 2^i,
  modulo 2. A node's `shift` is four times its level; a node at level `k` has depth `15 - k`.
 */
module CritnibWord {
  import opened Arith
  import opened CritnibHeap
  import opened CritnibOrder
  import opened CritnibSearch
  import opened CritnibIter

  type Word = w: nat | w < 0x1_0000_0000_0000_0000

  function Bit(w: nat, i: nat): nat {
    Shr(w, i) % 2
  }

  function Shr(w: nat, s: nat): nat {
    ModLe(w, Pow2(s));
    w / Pow2(s)
  }

  /** `slice_index` */
  function SliceIndex(key: Word, shift: nat): Nib {
    Shr(key, shift) % 16
  }

  /** `path_mask`: all ones but for the low `shift + 4` bits, none if that is the whole word. */
  function PathMask(shift: nat): Word
    requires shift <= 60
  {
    Pow2Mono(shift + 4, 64);
    Pow2Is64();
    Pow2(64) - Pow2(shift + 4)
  }

  /** `key & path_mask(shift)`: the low `shift + 4` bits cleared. */
  function Masked(key: Word, shift: nat): (m: Word)
    requires shift <= 60
    ensures m <= key
  {
    ModLe(key, Pow2(shift + 4));
    key - key % Pow2(shift + 4)
  }

  function Nibs(w: Word): Key {
    PowersAgree(16);
    Pow2Is64();
    KeyOf(w)
  }

  // ---------- powers and quotients ----------

  lemma {:induction false} PowersAgree(n: nat)
    ensures Pow16(n) == Pow2(4 * n)
  {
    if n > 0 {
      PowersAgree(n - 1);
      Pow2Add(4, 4 * (n - 1));
      assert Pow2(4) == 16;
    }
  }

  /** Shifting twice is shifting once by the sum. */
  lemma ShrShr(w: nat, a: nat, b: nat)
    ensures Shr(Shr(w, a), b) == Shr(w, a + b)
  {
    DivDiv(w, Pow2(a), Pow2(b));
    Pow2Add(a, b);
  }

  // ---------- nibbles ----------

  /** The first `n - k` digits are the digits of the word shifted right by `k` nibbles. */
  lemma {:induction false} DigitsPrefix(w: nat, n: nat, k: nat)
    requires k <= n
    ensures Digits(w, n)[..n - k] == Digits(Shr(w, 4 * k), n - k)
  {
    if k > 0 {
      DigitsPrefix(w, n, k - 1);
      var x, m := Shr(w, 4 * (k - 1)), n - k + 1;
      ShrShr(w, 4 * (k - 1), 4);
      assert Shr(x, 4) == x / 16 by { assert Pow2(4) == 16; }
      assert Digits(x, m)[..m - 1] == Digits(x / 16, m - 1);
      assert Digits(w, n)[..n - k] == Digits(w, n)[..m][..m - 1];
    } else {
      assert Pow2(0) == 1;
    }
  }

  /** `slice_index` is the nibble at the node's depth. */
  lemma SliceIsNibble(w: Word, d: Nib)
    ensures SliceIndex(w, 4 * (15 - d)) == Nibs(w)[d]
  {
    DigitsPrefix(w, 16, 15 - d);
    assert Nibs(w) == Digits(w, 16);
    assert Nibs(w)[d] == Nibs(w)[..d + 1][d] == Digits(Shr(w, 4 * (15 - d)), d + 1)[d];
  }

  lemma {:induction false} DigitsInjective(v: nat, w: nat, n: nat)
    requires v < Pow16(n) && w < Pow16(n) && Digits(v, n) == Digits(w, n)
    ensures v == w
  {
    DigitsVal(v, n);
    DigitsVal(w, n);
  }

  lemma ShrBound(w: Word, k: nat)
    requires k <= 16
    ensures Shr(w, 4 * k) < Pow16(16 - k)
  {
    PowersAgree(16 - k);
    Pow2Is64();
    Pow2Add(4 * k, 4 * (16 - k));
    QuotientBound(w, Pow2(4 * k), Pow2(4 * (16 - k)));
  }

  lemma QuotientBound(w: nat, p: nat, b: nat)
    requires p > 0 && w < p * b
    ensures w / p < b
  {
    ModLe(w, p);
    if w / p >= b { MulMono(b, w / p, p); }
  }

  /** Words agree above a node's nibble exactly when the strings agree up to the node's depth. */
  lemma AgreeAbove(a: Word, b: Word, d: Nib)
    ensures Shr(a, 4 * (16 - d)) == Shr(b, 4 * (16 - d)) <==> Nibs(a)[..d] == Nibs(b)[..d]
  {
    DigitsPrefix(a, 16, 16 - d);
    DigitsPrefix(b, 16, 16 - d);
    ShrBound(a, 16 - d);
    ShrBound(b, 16 - d);
    if Nibs(a)[..d] == Nibs(b)[..d] { DigitsInjective(Shr(a, 4 * (16 - d)), Shr(b, 4 * (16 - d)), d); }
  }

  /**
    The path test of `critnib_insert`: a masked key equals a masked path exactly when the path is a prefix of
    the key.
   */
  lemma PathTest(key: Word, x: Word, d: Nib)
    ensures Masked(key, 4 * (15 - d)) == Masked(x, 4 * (15 - d)) <==> Nibs(x)[..d] <= Nibs(key)
  {
    var p := Pow2(4 * (16 - d));
    ModLe(key, p);
    ModLe(x, p);
    assert 4 * (15 - d) + 4 == 4 * (16 - d);
    AgreeAbove(key, x, d);
    assert Masked(key, 4 * (15 - d)) == Shr(key, 4 * (16 - d)) * p &&
      Masked(x, 4 * (15 - d)) == Shr(x, 4 * (16 - d)) * p;
    if Shr(key, 4 * (16 - d)) * p ==
      Shr(x, 4 * (16 - d)) * p { MulCancel(Shr(key, 4 * (16 - d)), Shr(x, 4 * (16 - d)), p); }
  }

  // ---------- exclusive or, and its most significant bit ----------

  lemma BitOfShr(w: nat, s: nat, i: nat)
    ensures Bit(Shr(w, s), i) == Bit(w, s + i)
  {
    ShrShr(w, s, i);
  }

  /** A word is determined by its bits. */
  lemma {:induction false} BitsDetermine(a: nat, b: nat)
    requires forall i: nat :: Bit(a, i) == Bit(b, i)
    ensures a == b
    decreases a + b
  {
    assert Bit(a, 0) == a % 2 && Bit(b, 0) == b % 2 by { assert Pow2(0) == 1; }
    if a > 0 || b > 0 {
      assert Pow2(1) == 2 && Shr(a, 1) == a / 2 && Shr(b, 1) == b / 2;
      forall i: nat ensures Bit(a / 2, i) == Bit(b / 2, i) {
        BitOfShr(a, 1, i);
        BitOfShr(b, 1, i);
      }
      BitsDetermine(a / 2, b / 2);
    }
  }

  /** No bit at `s` or above is set in the exclusive or exactly when both words agree above `s`. */
  lemma SameHighBits(a: nat, b: nat, s: nat)
    ensures (forall i: nat | i >= s :: Bit(a, i) == Bit(b, i)) <==> Shr(a, s) == Shr(b, s)
  {
    if forall i: nat | i >= s :: Bit(a, i) == Bit(b, i) {
      forall i: nat ensures Bit(Shr(a, s), i) == Bit(Shr(b, s), i) {
        BitOfShr(a, s, i);
        BitOfShr(b, s, i);
      }
      BitsDetermine(Shr(a, s), Shr(b, s));
    }
    if Shr(a, s) == Shr(b, s) {
      forall i: nat | i >= s ensures Bit(a, i) == Bit(b, i) {
        BitOfShr(a, s, i - s);
        BitOfShr(b, s, i - s);
      }
    }
  }

  /** `find_le`'s test for a key outside a subtree: some bit above the node's nibble differs from its path. */
  lemma OutsideTest(key: Word, path: Word, d: Nib)
    ensures (exists i: nat :: i >= 4 * (15 - d) + 4 && Bit(key, i) != Bit(path, i)) <==> !(Nibs(path)[..d] <= Nibs(key))
  {
    assert 4 * (15 - d) + 4 == 4 * (16 - d);
    SameHighBits(key, path, 4 * (16 - d));
    AgreeAbove(key, path, d);
  }

  /** `i` is the most significant set bit of the exclusive or. */
  ghost predicate TopDifference(a: nat, b: nat, i: nat) {
    Bit(a, i) != Bit(b, i) && forall j: nat | j > i :: Bit(a, j) == Bit(b, j)
  }

  lemma NibbleAdds(w: Word, d: Nib)
    ensures Shr(w, 4 * (15 - d)) == 16 * Shr(w, 4 * (16 - d)) + Nibs(w)[d]
  {
    ShrShr(w, 4 * (15 - d), 4);
    assert Pow2(4) == 16;
    SliceIsNibble(w, d);
  }

  /** The shift an insert computes for its new node leads to the first nibble in which key and path differ. */
  lemma SplitShift(a: Word, b: Word, i: nat)
    requires TopDifference(a, b, i) && i < 64
    ensures var d: Nib := 15 - (i - i % 4) / 4; Nibs(a)[..d] == Nibs(b)[..d] && Nibs(a)[d] != Nibs(b)[d]
  {
    var k := i / 4;
    var d: Nib := 15 - k;
    SameHighBits(a, b, 4 * (16 - d));
    AgreeAbove(a, b, d);
    NibbleAdds(a, d);
    NibbleAdds(b, d);
    SameHighBits(a, b, 4 * k);
  }

  // ---------- path masks and padded paths ----------

  lemma Times16(a: int, b: int)
    ensures a * b * 16 == a * (16 * b)
  {
  }

  lemma {:induction false} ValPad(p: seq<Nib>, n: nat)
    ensures Val(p + seq(n, i => 0)) == Val(p) * Pow16(n)
  {
    if n > 0 {
      ValPad(p, n - 1);
      var x, y := p + seq(n, i => 0), p + seq(n - 1, i => 0);
      assert x[..|x| - 1] == y && x[|x| - 1] == 0;
      Times16(Val(p), Pow16(n - 1));
    } else {
      assert p + seq(0, i => 0) == p;
    }
  }

  lemma ValPrefix(x: Word, d: Nib)
    ensures Val(Nibs(x)[..d]) == Shr(x, 4 * (16 - d))
  {
    DigitsPrefix(x, 16, 16 - d);
    ShrBound(x, 16 - d);
    DigitsVal(Shr(x, 4 * (16 - d)), d);
  }

  /** The path a node stores, as a word, is the padded path of its string. */
  lemma StoredPath(x: Word, d: Nib)
    ensures Val(Pad(Nibs(x)[..d])) == Masked(x, 4 * (15 - d))
  {
    ValPad(Nibs(x)[..d], 16 - d);
    ValPrefix(x, d);
    PowersAgree(16 - d);
    MaskedIs(x, 15 - d);
  }

  lemma MaskedIs(x: Word, k: nat)
    requires k <= 15
    ensures Masked(x, 4 * k) == Shr(x, 4 * (k + 1)) * Pow2(4 * (k + 1))
  {
    assert 4 * k + 4 == 4 * (k + 1);
    ModLe(x, Pow2(4 * (k + 1)));
  }

  lemma {:induction false} ValOnes(d: nat)
    ensures Val(seq(d, i => 15)) == Pow16(d) - 1
  {
    if d > 0 {
      ValOnes(d - 1);
      var x: seq<Nib> := seq(d, i => 15);
      assert x[..d - 1] == seq(d - 1, i => 15);
    }
  }

  lemma MaskValue(d: Nib)
    ensures Val(Mask(d)) == (Pow16(d) - 1) * Pow16(16 - d)
  {
    var ones: seq<Nib> := seq(d, i => 15);
    assert Mask(d) == ones + seq(16 - d, i => 0);
    ValPad(ones, 16 - d);
    ValOnes(d);
  }

  lemma MaskPowers(d: Nib)
    ensures Pow2(64) == Pow16(d) * Pow16(16 - d) && Pow2(4 * (15 - d) + 4) == Pow16(16 - d)
  {
    PowersAgree(d);
    PowersAgree(16 - d);
    Pow2Add(4 * d, 4 * (16 - d));
    assert 4 * d + 4 * (16 - d) == 64 && 4 * (15 - d) + 4 == 4 * (16 - d);
  }

  /** `path_mask`, as a word, is the mask of the node's depth. */
  lemma MaskWord(d: Nib)
    ensures Val(Mask(d)) == PathMask(4 * (15 - d))
  {
    MaskValue(d);
    MaskPowers(d);
    LessOne(Val(Mask(d)), Pow16(d), Pow16(16 - d), Pow2(64));
  }

  lemma LessOne(v: int, a: int, b: int, w: int)
    requires v == (a - 1) * b && w == a * b
    ensures v == w - b
  {
    Dist(a, 1, b);
  }

  lemma {:induction false} OnesBits(n: nat, i: nat)
    requires i < n
    ensures Bit(Pow2(n) - 1, i) == 1
  {
    var w, h := Pow2(n) - 1, Pow2(n - 1) - 1;
    assert w == h * 2 + 1 && Pow2(0) == 1 && Pow2(1) == 2;
    DivUnique(w, 2, h, 1);
    if i == 0 {
      DivUnique(w, 1, w, 0);
    } else {
      BitOfShr(w, 1, i - 1);
      OnesBits(n - 1, i - 1);
    }
  }

  lemma MaskQuotient(s: nat, t: nat)
    ensures Pow2(s) <= Pow2(s + t) && (Pow2(s + t) - Pow2(s)) / Pow2(s) == Pow2(t) - 1
  {
    Pow2Add(s, t);
    Pow2Mono(s, s + t);
    OneLess(Pow2(s), Pow2(t), Pow2(s + t));
  }

  lemma OneLess(p: nat, n: nat, w: nat)
    requires p > 0 && n > 0 && w == p * n && p <= w
    ensures (w - p) / p == n - 1
  {
    Dist(n, 1, p);
    DivUnique(w - p, p, n - 1, 0);
  }

  lemma ShrOfMask(shift: nat)
    requires shift <= 60
    ensures Shr(PathMask(shift), shift + 4) == Pow2(60 - shift) - 1
  {
    MaskQuotient(shift + 4, 60 - shift);
  }

  /** Every bit of a stored path is a bit of the path mask, so ORing the mask into the path gives the mask. */
  lemma OrIsMask(path: Word, shift: nat, i: nat)
    requires shift <= 60 && path == Masked(path, shift) && i < 64 && Bit(path, i) == 1
    ensures Bit(PathMask(shift), i) == 1
  {
    var s := shift + 4;
    if i < s {
      LowBitsClear(path, s, i);
    } else {
      MaskBit(shift, i);
    }
  }

  lemma MaskBit(shift: nat, i: nat)
    requires shift <= 60 && shift + 4 <= i < 64
    ensures Bit(PathMask(shift), i) == 1
  {
    var j := i - (shift + 4);
    ShrOfMask(shift);
    BitOfShr(PathMask(shift), shift + 4, j);
    OnesBits(60 - shift, j);
  }

  lemma LowBitsClear(w: nat, s: nat, i: nat)
    requires i < s && w % Pow2(s) == 0
    ensures Bit(w, i) == 0
  {
    ModLe(w, Pow2(s));
    Pow2Add(i, s - i);
    EvenQuotient(w, w / Pow2(s), Pow2(i), Pow2(s - i - 1));
  }

  lemma EvenQuotient(w: nat, q: nat, p: nat, half: nat)
    requires p > 0 && w == q * (p * (2 * half))
    ensures w / p % 2 == 0
  {
    var x := q * half;
    assert w == 2 * (q * (p * half)) == 2 * (x * p) == (2 * x) * p;
    DivUnique(w, p, 2 * x, 0);
  }
}
