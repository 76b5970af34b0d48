/** Keys as numbers: the order of words is the order of their nibble strings. */
module CritnibOrder {
  import opened CritnibHeap

  /** The number written by a string of nibbles. */
  function Val(k: seq<Nib>): nat {
    if k == [] then 0 else Val(k[..|k| - 1]) * 16 + k[|k| - 1]
  }

  /** Strings that first differ at `d` compare as their nibbles at `d` do. */
  lemma {:induction false} ValDiverge(a: seq<Nib>, b: seq<Nib>, d: nat)
    requires |a| == |b| && d < |a| && a[..d] == b[..d] && a[d] < b[d]
    ensures Val(a) < Val(b)
  {
    var n := |a| - 1;
    if d == n {
      assert a[..n] == b[..n];
    } else {
      assert a[..n][..d] == a[..d] && b[..n][..d] == b[..d];
      ValDiverge(a[..n], b[..n], d);
    }
  }

  lemma {:induction false} ValInjective(a: seq<Nib>, b: seq<Nib>)
    requires |a| == |b| && Val(a) == Val(b)
    ensures a == b
  {
    if a != [] {
      var n := |a| - 1;
      assert a[n] == b[n];
      ValInjective(a[..n], b[..n]);
      assert a == a[..n] + [a[n]] && b == b[..n] + [b[n]];
    }
  }

  /** Sixteen to the power `n`. */
  function Pow16(n: nat): nat {
    if n == 0 then 1 else 16 * Pow16(n - 1)
  }

  function Digits(v: nat, n: nat): (k: seq<Nib>)
    ensures |k| == n
  {
    if n == 0 then [] else Digits(v / 16, n - 1) + [v % 16]
  }

  lemma {:induction false} DigitsVal(v: nat, n: nat)
    requires v < Pow16(n)
    ensures Val(Digits(v, n)) == v
  {
    if n > 0 {
      DigitsVal(v / 16, n - 1);
      assert Digits(v, n)[..n - 1] == Digits(v / 16, n - 1);
    }
  }

  lemma {:induction false} ValBound(k: seq<Nib>)
    ensures Val(k) < Pow16(|k|)
  {
    if k != [] { ValBound(k[..|k| - 1]); }
  }

  /** The key with a given number. */
  function KeyOf(v: nat): (k: Key)
    requires v < Pow16(16)
    ensures Val(k) == v
  {
    DigitsVal(v, 16);
    Digits(v, 16)
  }
}
