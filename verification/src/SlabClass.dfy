/** A slab of regions of one size, handed out lowest first. */
module SlabClass {
  import opened SlabBitmap

  /** The address of a region. */
  function AddrOf(base: nat, regSize: nat, x: nat): nat { base + regSize * x }

  function AddrsOf(base: nat, regSize: nat, xs: seq<nat>): seq<nat> {
    seq(|xs|, i requires 0 <= i < |xs| => AddrOf(base, regSize, xs[i]))
  }

  /** Regions lie end to end from the base on: a later one begins where an earlier one has ended, or above. */
  lemma RegionsApart(base: nat, regSize: nat, x: nat, y: nat, n: nat)
    requires x < y < n
    ensures AddrOf(base, regSize, 0) == base && AddrOf(base, regSize, x + 1) == AddrOf(base, regSize, x) + regSize
    ensures base <= AddrOf(base, regSize, x) && AddrOf(base, regSize, x) + regSize <= AddrOf(base, regSize, y)
    ensures AddrOf(base, regSize, y) + regSize <= base + regSize * n
  {
    assert regSize * (x + 1) <= regSize * y && regSize * (y + 1) <= regSize * n;
  }

  /** A region's bytes lie within the slab, and apart from those of every other region. */
  ghost predicate OwnBytes(base: nat, regSize: nat, n: nat, p: nat, x: nat) {
    && p == base + regSize * x && base <= p && p + regSize <= base + regSize * n
    && forall y: nat | y < n && y != x :: p + regSize <= base + regSize * y || base + regSize * y + regSize <= p
  }

  lemma RegionOwnBytes(base: nat, regSize: nat, n: nat, x: nat)
    requires x < n
    ensures OwnBytes(base, regSize, n, AddrOf(base, regSize, x), x)
  {
    var p := AddrOf(base, regSize, x);
    assert p + regSize <= base + regSize * n by { RegionsApart(base, regSize, x, x + 1, n + 1); }
    forall y: nat | y < n && y != x
      ensures p + regSize <= base + regSize * y || base + regSize * y + regSize <= p
    {
      if x < y { RegionsApart(base, regSize, x, y, n); } else { RegionsApart(base, regSize, y, x, n); }
    }
  }

  lemma AddrsApart(base: nat, regSize: nat, n: nat, out: seq<nat>)
    requires forall i | 0 <= i < |out| :: out[i] < n
    requires forall i, j | 0 <= i < j < |out| :: out[i] < out[j]
    ensures var ptrs := AddrsOf(base, regSize, out);
      && |ptrs| == |out| && (forall i | 0 <= i < |out| :: OwnBytes(base, regSize, n, ptrs[i], out[i]))
      && (forall i, j | 0 <= i < j < |out| :: ptrs[i] + regSize <= ptrs[j])
  {
    forall i | 0 <= i < |out| ensures OwnBytes(base, regSize, n, AddrOf(base, regSize, out[i]), out[i]) {
      RegionOwnBytes(base, regSize, n, out[i]);
    }
    forall i, j | 0 <= i < j < |out|
      ensures AddrOf(base, regSize, out[i]) + regSize <= AddrOf(base, regSize, out[j])
    {
      RegionsApart(base, regSize, out[i], out[j], n);
    }
  }

  lemma FirstTaken(s: seq<Word>, g: nat, b: nat)
    requires g < |s| && b in s[g] && (forall j | 0 <= j < g :: s[j] == {}) && forall c | c in s[g] :: b <= c
    ensures OneByOne(s, [BITS * g + b], s[g := s[g] - {b}]) && NumFree(s[g := s[g] - {b}]) + 1 == NumFree(s)
  {
    FirstInGroup(s, g, b);
    assert [BITS * g + b][1..] == [];
  }

  lemma OneTaken(base: nat, regSize: nat, s: seq<Word>, x: nat, s': seq<Word>)
    requires OneByOne(s, [x], s')
    ensures HandsOutLowest(s, [x], s') && OwnBytes(base, regSize, 64 * |s|, AddrOf(base, regSize, x), x)
  {
    OneByOneLowest(s, [x], s');
    assert [x][0] == x;
    FreeInside(s, x);
    RegionOwnBytes(base, regSize, 64 * |s|, x);
  }

  lemma OutInside(s: seq<Word>, out: seq<nat>)
    requires forall i | 0 <= i < |out| :: IsFree(s, out[i])
    ensures forall i | 0 <= i < |out| :: out[i] < 64 * |s|
  {
    forall i | 0 <= i < |out| ensures out[i] < 64 * |s| { FreeInside(s, out[i]); }
  }

  lemma AddrsJoin(base: nat, regSize: nat, xs: seq<nat>, ys: seq<nat>)
    ensures AddrsOf(base, regSize, xs + ys) == AddrsOf(base, regSize, xs) + AddrsOf(base, regSize, ys)
  {
  }

  /** The lowest bit of what is left of a group is the next single allocation. */
  lemma NextBit(s: seq<Word>, group: nat, g: Word, out: seq<nat>, bit: nat)
    requires group < |s| && (forall j | 0 <= j < group :: s[j] == {}) && bit in g && forall c | c in g :: bit <= c
    requires OneByOne(s, out, s[group := g]) && NumFree(s[group := g]) + |out| == NumFree(s)
    ensures bit < BITS && OneByOne(s, out + [BITS * group + bit], s[group := g - {bit}])
    ensures NumFree(s[group := g - {bit}]) + |out| + 1 == NumFree(s)
  {
    var now := s[group := g];
    FirstInGroup(now, group, bit);
    OneMore(s, out, now, BITS * group + bit);
    assert now[group := g - {bit}] == s[group := g - {bit}];
  }

  /** The innermost loop of the batch: the lowest `pop` bits of one word, by `cfs_lu`. */
  method TakeBits(base: nat, regSize: nat, group: nat, word: Word, pop: nat, ghost s: seq<Word>)
      returns (ptrs: seq<nat>, g: Word, ghost out: seq<nat>)
    requires group < |s| && s[group] == word && (forall j | 0 <= j < group :: s[j] == {}) && pop <= |word|
    ensures |ptrs| == |out| == pop && ptrs == AddrsOf(base, regSize, out)
    ensures OneByOne(s, out, s[group := g]) && NumFree(s[group := g]) + pop == NumFree(s)
  {
    ptrs, out, g := [], [], word;
    assert s[group := g] == s;
    var left := pop;
    while left > 0
      invariant |ptrs| == |out| == pop - left && 0 <= left <= |g| && ptrs == AddrsOf(base, regSize, out)
      invariant NumFree(s[group := g]) + |out| == NumFree(s) && OneByOne(s, out, s[group := g])
    {
      var bit := LowestBit(g);
      ghost var x := BITS * group + bit;
      NextBit(s, group, g, out, bit);
      AddrsJoin(base, regSize, out, [x]);
      ptrs, out, g := ptrs + [AddrOf(base, regSize, BITS * group + bit)], out + [x], g - {bit};
      left := left - 1;
    }
  }

  class Slab {
    const base: nat
    const regSize: nat
    const bitmap: array<Word>
    var nfree: nat

    ghost predicate Valid()
      reads this, bitmap
    {
      nfree == NumFree(bitmap[..])
    }

    constructor (addr: nat, size: nat, words: array<Word>)
      ensures Valid() && base == addr && regSize == size && bitmap == words
    {
      base, regSize, bitmap := addr, size, words;
      nfree := NumFree(words[..]);
    }

    /** `arena_slab_reg_alloc` */
    method RegAlloc() returns (ret: nat, ghost x: nat)
      requires Valid() && nfree > 0
      modifies this`nfree, bitmap
      ensures Valid() && nfree == old(nfree) - 1 && ret == AddrOf(base, regSize, x) &&
        OneByOne(old(bitmap[..]), [x], bitmap[..])
      ensures HandsOutLowest(old(bitmap[..]), [x], bitmap[..])
      ensures OwnBytes(base, regSize, 64 * bitmap.Length, ret, x)
    {
      ghost var s: seq<Word> := bitmap[..];
      SomeGroup(s, 0);
      var i := NextGroup(0);
      var bit := LowestBit(bitmap[i]);
      x := BITS * i + bit;
      FirstTaken(s, i, bit);
      OneTaken(base, regSize, s, x, s[i := s[i] - {bit}]);
      bitmap[i] := bitmap[i] - {bit};
      assert bitmap[..] == s[i := s[i] - {bit}];
      nfree := nfree - 1;
      ret := AddrOf(base, regSize, BITS * i + bit);
    }

    /** The first group from `start` on that is not empty. */
    method NextGroup(start: nat) returns (group: nat)
      requires NumFree(bitmap[..]) > 0 && start < bitmap.Length && forall j | 0 <= j < start :: bitmap[j] == {}
      ensures group < bitmap.Length && bitmap[group] != {} && forall j | 0 <= j < group :: bitmap[j] == {}
    {
      group := start;
      while bitmap[group] == {}
        invariant group < bitmap.Length && forall j | 0 <= j < group :: bitmap[j] == {}
        decreases bitmap.Length - group
      {
        SomeGroup(bitmap[..], group + 1);
        group := group + 1;
      }
    }

    /** The lowest bits of one group, as many as there are but no more than are wanted. */
    method TakeGroup(group: nat, want: nat) returns (ptrs: seq<nat>, ghost out: seq<nat>)
      requires group < bitmap.Length && want > 0 && bitmap[group] != {} && forall j | 0 <= j < group :: bitmap[j] == {}
      modifies bitmap
      ensures 0 < |ptrs| == |out| <= want && ptrs == AddrsOf(base, regSize, out)
      ensures OneByOne(old(bitmap[..]), out, bitmap[..]) && NumFree(bitmap[..]) + |out| == NumFree(old(bitmap[..]))
      ensures forall j | 0 <= j < group :: bitmap[j] == {}
    {
      var g: Word := bitmap[group];
      ghost var s: seq<Word> := bitmap[..];
      var pop: nat := |g|;
      if pop > want { pop := want; }
      ptrs, g, out := TakeBits(base, regSize, group, g, pop, s);
      bitmap[group] := g;
      assert bitmap[..] == s[group := g];
    }

    /** `arena_slab_reg_alloc_batch`: word by word, the same regions as one by one. */
    method RegAllocBatch(cnt: nat) returns (ptrs: seq<nat>, ghost out: seq<nat>)
      requires Valid() && nfree >= cnt && nfree > 0
      modifies this`nfree, bitmap
      ensures Valid() && nfree == old(nfree) - cnt && |out| == cnt && ptrs == AddrsOf(base, regSize, out)
      ensures OneByOne(old(bitmap[..]), out, bitmap[..]) && HandsOutLowest(old(bitmap[..]), out, bitmap[..])
      ensures |ptrs| == cnt && forall i | 0 <= i < cnt :: OwnBytes(base, regSize, 64 * bitmap.Length, ptrs[i], out[i])
      ensures forall i, j | 0 <= i < j < cnt :: ptrs[i] + regSize <= ptrs[j]
    {
      ptrs, out := [], [];
      SomeGroup(bitmap[..], 0);
      var group: nat := 0;
      while |ptrs| < cnt
        invariant |ptrs| == |out| <= cnt && ptrs == AddrsOf(base, regSize, out) && group < bitmap.Length
        invariant (forall j | 0 <= j < group :: bitmap[j] == {}) && nfree == NumFree(bitmap[..]) + |out| == old(nfree)
        invariant OneByOne(old(bitmap[..]), out, bitmap[..])
        decreases cnt - |ptrs|
      {
        group := NextGroup(group);
        ghost var s: seq<Word> := bitmap[..];
        var more;
        ghost var xs;
        more, xs := TakeGroup(group, cnt - |ptrs|);
        AddrsJoin(base, regSize, out, xs);
        OneByOneJoin(old(bitmap[..]), out, s, xs, bitmap[..]);
        ptrs, out := ptrs + more, out + xs;
      }
      nfree := nfree - cnt;
      OneByOneLowest(old(bitmap[..]), out, bitmap[..]);
      OutInside(old(bitmap[..]), out);
      AddrsApart(base, regSize, 64 * bitmap.Length, out);
    }
  }
}
