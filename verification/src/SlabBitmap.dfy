/** The bitmap of a slab: one bit for each region, in words of 64, set where the region is free. */
module SlabBitmap {

  const BITS: nat := 64

  /** A word by the positions of its set bits. */
  type Word = w: set<nat> | forall b | b in w :: b < BITS

  function Bit(x: nat): nat { x % BITS }
  function Group(x: nat): nat { x / BITS }

  predicate IsFree(s: seq<Word>, x: nat) {
    Group(x) < |s| && Bit(x) in s[Group(x)]
  }

  /** `x` is the lowest free region. */
  ghost predicate First(s: seq<Word>, x: nat) {
    IsFree(s, x) && forall y: nat | y < x :: !IsFree(s, y)
  }

  function Without(s: seq<Word>, x: nat): seq<Word>
    requires Group(x) < |s|
  {
    s[Group(x) := s[Group(x)] - {Bit(x)}]
  }

  /** `out` are the regions that so many single allocations hand out, one after the other, and `s'` what they leave. */
  ghost predicate OneByOne(s: seq<Word>, out: seq<nat>, s': seq<Word>)
    decreases |out|
  {
    if out == [] then s' == s
    else First(s, out[0]) && OneByOne(Without(s, out[0]), out[1..], s')
  }

  lemma {:induction false} OneMore(s: seq<Word>, out: seq<nat>, s1: seq<Word>, x: nat)
    requires OneByOne(s, out, s1) && First(s1, x)
    ensures OneByOne(s, out + [x], Without(s1, x))
    decreases |out|
  {
    if out == [] {
      assert out + [x] == [x] && [x][1..] == [];
    } else {
      assert (out + [x])[0] == out[0] && (out + [x])[1..] == out[1..] + [x];
      OneMore(Without(s, out[0]), out[1..], s1, x);
    }
  }

  lemma {:induction false} OneByOneJoin(s: seq<Word>, out: seq<nat>, s1: seq<Word>, out1: seq<nat>, s2: seq<Word>)
    requires OneByOne(s, out, s1) && OneByOne(s1, out1, s2)
    ensures OneByOne(s, out + out1, s2)
    decreases |out|
  {
    if out == [] {
      assert out + out1 == out1;
    } else {
      assert (out + out1)[0] == out[0] && (out + out1)[1..] == out[1..] + out1;
      OneByOneJoin(Without(s, out[0]), out[1..], s1, out1, s2);
    }
  }

  /** Single allocations leave no choice. */
  lemma {:induction false} OneByOneUnique(s: seq<Word>, out: seq<nat>, s': seq<Word>, out2: seq<nat>, s2: seq<Word>)
    requires OneByOne(s, out, s') && OneByOne(s, out2, s2) && |out| == |out2|
    ensures out == out2 && s' == s2
    decreases |out|
  {
    if out != [] {
      assert out[0] == out2[0];
      OneByOneUnique(Without(s, out[0]), out[1..], s', out2[1..], s2);
      assert out == [out[0]] + out[1..] && out2 == [out2[0]] + out2[1..];
    }
  }

  /** Region `64 g + b` is free exactly if bit `b` of word `g` is set. */
  lemma FreeBit(s: seq<Word>, g: nat, b: nat)
    requires g < |s| && b < 64
    ensures IsFree(s, 64 * g + b) <==> b in s[g]
  {
    assert Group(64 * g + b) == g && Bit(64 * g + b) == b;
  }

  lemma FreeWithout(s: seq<Word>, x: nat, y: nat)
    requires Group(x) < |s|
    ensures IsFree(Without(s, x), y) <==> IsFree(s, y) && y != x
  {
    assert x == BITS * Group(x) + Bit(x) && y == BITS * Group(y) + Bit(y);
  }

  lemma FreeInside(s: seq<Word>, x: nat)
    requires IsFree(s, x)
    ensures x < 64 * |s|
  {
    assert x == BITS * Group(x) + Bit(x);
  }

  /**
    What single allocations hand out was free and is no longer, in rising order, and everything that stays free
    lies above; nothing else changes.
   */
  ghost predicate HandsOutLowest(s: seq<Word>, out: seq<nat>, s': seq<Word>) {
    && |s'| == |s|
    && (forall i | 0 <= i < |out| :: IsFree(s, out[i]))
    && (forall i, j | 0 <= i < j < |out| :: out[i] < out[j])
    && (forall y: nat :: IsFree(s', y) <==> IsFree(s, y) && y !in out)
    && (forall i, y: nat | 0 <= i < |out| && IsFree(s', y) :: out[i] < y)
  }

  lemma {:induction false} OneByOneLowest(s: seq<Word>, out: seq<nat>, s': seq<Word>)
    requires OneByOne(s, out, s')
    ensures HandsOutLowest(s, out, s')
    decreases |out|
  {
    if out != [] {
      var x, rest, mid := out[0], out[1..], Without(s, out[0]);
      forall y: nat ensures IsFree(mid, y) <==> IsFree(s, y) && y != x { FreeWithout(s, x, y); }
      OneByOneLowest(mid, rest, s');
      LowestFirst(s, x, rest, mid, s');
      assert out == [x] + rest;
    }
  }

  lemma LowestFirst(s: seq<Word>, x: nat, rest: seq<nat>, mid: seq<Word>, s': seq<Word>)
    requires First(s, x) && |mid| == |s| && HandsOutLowest(mid, rest, s')
    requires forall y: nat :: IsFree(mid, y) <==> IsFree(s, y) && y != x
    ensures HandsOutLowest(s, [x] + rest, s')
  {
    var out := [x] + rest;
    forall i | 0 <= i < |out| ensures IsFree(s, out[i]) && (i > 0 ==> x < out[i]) {
      if i > 0 { assert out[i] == rest[i - 1] && IsFree(mid, rest[i - 1]); }
    }
  }

  // ---------- how many are free ----------

  function NumFree(s: seq<Word>): nat {
    if s == [] then 0 else |s[0]| + NumFree(s[1..])
  }

  lemma {:induction false} NumFreeSet(s: seq<Word>, i: nat, w: Word)
    requires i < |s|
    ensures NumFree(s[i := w]) + |s[i]| == NumFree(s) + |w|
  {
    if i == 0 {
      assert s[0 := w][1..] == s[1..];
    } else {
      assert s[i := w][0] == s[0] && s[i := w][1..] == s[1..][i - 1 := w];
      NumFreeSet(s[1..], i - 1, w);
    }
  }

  /** Where something is free, a group that is not empty comes. */
  lemma {:induction false} SomeGroup(s: seq<Word>, i: nat)
    requires NumFree(s) > 0 && i <= |s| && forall j | 0 <= j < i :: s[j] == {}
    ensures i < |s|
  {
    if s != [] && i > 0 { SomeGroup(s[1..], i - 1); }
  }

  /** The lowest bit of the first group that is not empty is the first free region. */
  lemma FirstInGroup(s: seq<Word>, g: nat, b: nat)
    requires g < |s| && b in s[g] && (forall j | 0 <= j < g :: s[j] == {}) && forall c | c in s[g] :: b <= c
    ensures First(s, BITS * g + b) && Without(s, BITS * g + b) == s[g := s[g] - {b}] &&
      NumFree(s[g := s[g] - {b}]) + 1 == NumFree(s)
  {
    var x := BITS * g + b;
    assert Group(x) == g && Bit(x) == b;
    forall y: nat | y < x ensures !IsFree(s, y) {
      assert y == BITS * Group(y) + Bit(y);
    }
    NumFreeSet(s, g, s[g] - {b});
  }

  /** `ffs_lu` less one: the lowest set bit. */
  method LowestBit(w: Word) returns (b: nat)
    requires w != {}
    ensures b in w && forall c | c in w :: b <= c
  {
    var some :| some in w;
    b := 0;
    while b !in w
      invariant b <= some && forall c | c in w :: b <= c
      decreases some - b
    {
      b := b + 1;
    }
  }
}
