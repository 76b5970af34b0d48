/** Facts about products, quotients and remainders that the solver does not find by itself. */
module Arith {
  lemma MulGe(x: nat, d: nat)
    requires x >= 1
    ensures x * d >= d
  {
    assert x * d == (x - 1) * d + d;
  }

  lemma Dist(a: int, b: int, d: int)
    ensures (a - b) * d == a * d - b * d && (a + b) * d == a * d + b * d
  {
  }

  lemma DivUnique(w: nat, d: nat, q: nat, r: nat)
    requires d > 0 && r < d && w == q * d + r
    ensures w / d == q && w % d == r
  {
    var q', r' := w / d, w % d;
    assert w == q' * d + r' && 0 <= r' < d;
    Dist(q, q', d);
    Dist(q', q, d);
    if q' < q { MulGe(q - q', d); }
    else if q' > q { MulGe(q' - q, d); }
  }

  lemma ModLe(a: nat, p: nat)
    requires p > 0
    ensures a % p <= a && a == a / p * p + a % p
  {
    var q := a / p;
    assert q >= 0;
    assert q * p >= 0;
  }

  lemma MulMono(a: nat, b: nat, p: nat)
    requires a <= b
    ensures a * p <= b * p
  {
    Dist(b, a, p);
    assert (b - a) * p >= 0;
  }

  lemma MulCancel(a: nat, b: nat, p: nat)
    requires p > 0 && a * p == b * p
    ensures a == b
  {
    Dist(b, a, p);
    Dist(a, b, p);
    if a < b { MulGe(b - a, p); }
    else if b < a { MulGe(a - b, p); }
  }

  lemma Regroup(q: int, a: int, r: int, b: int)
    ensures (q * a + r) * b == (q * b) * a + r * b
  {
    Dist(q * a, -r, b);
    assert (q * a) * b == (q * b) * a;
  }

  /** Two digits make a number below the product of their bases. */
  lemma TwoDigits(hi: nat, lo: nat, a: nat, b: nat)
    requires lo < a && hi < b
    ensures hi * a + lo < a * b
  {
    MulMono(hi + 1, b, a);
    assert (hi + 1) * a == hi * a + a;
  }

  lemma ThreeDigits(q: int, hi: int, lo: int, a: int, b: int)
    ensures (q * b + hi) * a + lo == q * (a * b) + (hi * a + lo)
  {
    Regroup(q, b, hi, a);
    assert (q * a) * b == q * (a * b);
  }

  lemma DivDiv(w: nat, a: nat, b: nat)
    requires a > 0 && b > 0
    ensures a * b > 0 && w / a / b == w / (a * b)
  {
    MulGe(a, b);
    var q: nat, lo: nat := w / a, w % a;
    var q2: nat, hi: nat := q / b, q % b;
    ModLe(w, a);
    ModLe(q, b);
    ThreeDigits(q2, hi, lo, a, b);
    TwoDigits(hi, lo, a, b);
    DivUnique(w, a * b, q2, hi * a + lo);
  }

  function Pow2(n: nat): (p: nat)
    ensures p >= 1
  {
    if n == 0 then 1 else 2 * Pow2(n - 1)
  }

  lemma TimesTwo(a: int, b: int)
    ensures 2 * (a * b) == (2 * a) * b
  {
  }

  lemma {:induction false} Pow2Add(m: nat, n: nat)
    ensures Pow2(m + n) == Pow2(m) * Pow2(n)
  {
    if m > 0 {
      Pow2Add(m - 1, n);
      assert Pow2(m + n) == 2 * Pow2(m - 1 + n) && Pow2(m) == 2 * Pow2(m - 1);
      TimesTwo(Pow2(m - 1), Pow2(n));
    }
  }

  lemma Pow2Is64()
    ensures Pow2(64) == 0x1_0000_0000_0000_0000
  {
    assert Pow2(4) == 16;
    Pow2Add(4, 4);
    assert Pow2(8) == 256;
    Pow2Add(8, 8);
    assert Pow2(16) == 0x1_0000;
    Pow2Add(16, 16);
    assert Pow2(32) == 0x1_0000_0000;
    Pow2Add(32, 32);
  }

  lemma {:induction false} Pow2Mono(a: nat, b: nat)
    requires a <= b
    ensures Pow2(a) <= Pow2(b)
  {
    if a < b { Pow2Mono(a, b - 1); }
  }

  lemma MulMod(q: nat, a: nat)
    requires a > 0
    ensures (q * a) % a == 0 && (q * a) / a == q
  {
    DivUnique(q * a, a, q, 0);
  }

  lemma AddMod(x: nat, y: nat, a: nat)
    requires a > 0 && x % a == 0 && y % a == 0
    ensures (x + y) % a == 0
  {
    ModLe(x, a);
    ModLe(y, a);
    Dist(x / a, y / a, a);
    MulMod(x / a + y / a, a);
  }

  /** A multiple of a multiple. */
  lemma ModTrans(x: nat, b: nat, a: nat)
    requires a > 0 && b > 0 && x % b == 0 && b % a == 0
    ensures x % a == 0
  {
    ModLe(x, b);
    ModLe(b, a);
    assert x == (x / b) * ((b / a) * a);
    assert x == ((x / b) * (b / a)) * a;
    MulMod((x / b) * (b / a), a);
  }

  /** Whole turns do not matter. */
  lemma ModAway(x: nat, k: nat, a: nat, y: nat)
    requires a > 0 && y == x + k * a
    ensures y % a == x % a
  {
    ModLe(x, a);
    var q: nat := x / a;
    assert (q + k) * a == q * a + k * a;
    DivUnique(y, a, q + k, x % a);
  }

  /** A step of a Horner scheme, before or after taking the remainder. */
  lemma ModStep(v: nat, b: nat, d: nat, a: nat)
    requires a > 0
    ensures (v % a * b + d) % a == (v * b + d) % a
  {
    ModLe(v, a);
    var q: nat, r: nat := v / a, v % a;
    Regroup(q, a, r, b);
    ModAway(r * b + d, q * b, a, v * b + d);
  }
}
