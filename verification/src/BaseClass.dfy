/**
  `base_t`: memory that is handed out once and never taken back. Each method is one critical section
  of `base_alloc_impl`, which drops the mutex while a new block is mapped.
 */
module BaseClass {
  import opened Common
  import opened Arith
  import opened BaseMath
  import opened BaseBlocks

  class Base {
    /** `sizeof(base_block_t)` and the size classes. */
    const header: nat
    const classes: seq<nat>
    /** `sz_psz2u`, `sz_pind2sz` and `sz_psz2ind`, and the last index of the series of block sizes. */
    const psz2u: nat -> nat
    const pind2sz: nat -> nat
    const psz2ind: nat -> nat
    const pindMax: nat
    var pindLast: nat
    var blocks: map<nat, Block>
    var avail: seq<set<nat>>
    var allocatedBytes: nat
    var residentBytes: nat
    var mappedBytes: nat
    /** What each thread between dropping the mutex and taking it again has mapped. */
    var mapped: map<nat, Mapping>
    ghost var ranges: set<Range>

    /** The counters are the sums over the blocks. */
    ghost predicate Counted()
      reads this`blocks, this`allocatedBytes, this`residentBytes, this`mappedBytes
    {
      Tallied(blocks, allocatedBytes, residentBytes, mappedBytes)
    }

    /** `avail` and `ranges` match the blocks, but for the extent in hand. */
    ghost predicate Sound(hand: Option<nat>)
      reads this`blocks, this`avail, this`ranges
    {
      0 < header <= HUGEPAGE && (forall x :: psz2u(x) >= x) && Laid(blocks, avail, ranges, classes, header, hand)
    }

    ghost predicate Valid()
      reads this`blocks, this`avail, this`ranges, this`allocatedBytes, this`residentBytes, this`mappedBytes
    {
      Sound(None) && Counted()
    }

    /** What threads have mapped and not filed yet fits and is clear. */
    ghost predicate Pending()
      reads this`mapped, this`blocks
    {
      MappedOk(mapped, blocks, header)
    }

    /** What the assertions on the counters say. */
    predicate InOrder()
      reads this`allocatedBytes, this`residentBytes, this`mappedBytes
    {
      allocatedBytes <= residentBytes <= mappedBytes
    }

    /** A base before its first block. */
    constructor (hdr: nat, sizes: seq<nat>, roundPages: nat -> nat, classSize: nat -> nat, classIndex: nat -> nat,
        maxIndex: nat)
      requires 0 < hdr <= HUGEPAGE && ClassesOk(sizes) && (forall x :: roundPages(x) >= x)
      ensures Valid() && Pending() && header == hdr && classes == sizes && blocks.Keys == {} && ranges == {} &&
        mapped == map[]
    {
      header, classes, psz2u, pind2sz, psz2ind, pindMax := hdr, sizes, roundPages, classSize, classIndex, maxIndex;
      pindLast := 0;
      mapped := map[];
      blocks, avail := map[], seq(|sizes|, _ => {});
      allocatedBytes, residentBytes, mappedBytes := 0, 0, 0;
      ranges := {};
    }

    /** `base_extent_bump_alloc` from the block in hand. */
    method BumpAlloc(start: nat, usize: nat, lgAlign: nat) returns (ret: nat)
      requires Sound(Some(start)) && Counted() && start in blocks && lgAlign >= 4 && usize % Pow2(lgAlign) == 0
      requires Ceil(blocks[start].next, Pow2(lgAlign)) + usize <= start + blocks[start].size
      modifies this`blocks, this`avail, this`allocatedBytes, this`residentBytes, this`ranges
      ensures Valid() && Granted(old(ranges), ranges, ret, usize, lgAlign, start)
      ensures InOrder() && blocks == old(blocks)[start := Bumped(old(blocks)[start], ret, usize)]
    {
      var b, alignment := blocks[start], Pow2(lgAlign);
      CeilLeast(b.next, alignment);
      var gap := Ceil(b.next, alignment) - b.next;
      ret := b.next + gap;
      assert start + b.size - b.next >= gap + usize;
      BumpLaid(blocks, avail, ranges, classes, header, start, ret, usize, lgAlign);
      Count(start, b, ret, usize, gap);
      blocks := blocks[start := Bumped(b, ret, usize)];
      Shelve(start);
      ranges := ranges + {Range(ret, usize, start)};
    }

    /** `base_extent_bump_alloc_post`: the extent into the heap of what is left of it. */
    method Shelve(start: nat)
      requires ClassesOk(classes) && |avail| == |classes| && start in blocks
      requires Left(start, blocks[start]) <= 0 || Left(start, blocks[start]) >= QUANTUM
      modifies this`avail
      ensures avail == Reshelved(old(avail), classes, start, blocks[start])
    {
      var bsize := Left(start, blocks[start]);
      if bsize > 0 {
        var i := Size2Index(classes, bsize + 1) - 1;
        avail := avail[i := avail[i] + {start}];
      }
    }

    /** `base_extent_bump_alloc_post`: the counters for the block that `Bumped` gives. */
    method Count(start: nat, b: Block, ret: nat, usize: nat, gap: nat)
      requires Counted() && AllOk(blocks, header) && start in blocks && b == blocks[start] && ret == b.next + gap
      requires BlockOk(start, Bumped(b, ret, usize), header)
      modifies this`allocatedBytes, this`residentBytes
      ensures InOrder()
      ensures Tallied(blocks[start := Bumped(b, ret, usize)], allocatedBytes, residentBytes, mappedBytes)
    {
      TalliedBumped(blocks, header, start, b, ret, usize, allocatedBytes, residentBytes, mappedBytes);
      allocatedBytes := allocatedBytes + usize;
      residentBytes := residentBytes + (Ceil(ret + usize, PAGE) - Ceil(ret - gap, PAGE));
    }

    /** The heaps that `base_alloc_impl` looks through are all empty. */
    predicate NoneLarge(size: nat, lgAlign: nat)
      reads this`avail
    {
      var a := Pow2(Max(lgAlign, 4));
      QuantumCeil(lgAlign);
      AlignmentKinds(Max(lgAlign, 4));
      |avail| == |classes| &&
      forall i | Size2Index(classes, Usize(size, lgAlign) + a - QUANTUM) <= i < |classes| :: avail[i] == {}
    }

    /** They are those of every class that is enough for the request and the largest gap. */
    lemma NoneLargeMeans(size: nat, lgAlign: nat)
      requires ClassesOk(classes) && |avail| == |classes|
      ensures NoneLarge(size, lgAlign) <==> forall i | 0 <= i < |classes| &&
        classes[i] + 16 >= Usize(size, lgAlign) + Pow2(Max(lgAlign, 4)) :: avail[i] == {}
    {
      QuantumCeil(lgAlign);
      AlignmentKinds(Max(lgAlign, 4));
      var asize := Usize(size, lgAlign) + Pow2(Max(lgAlign, 4)) - QUANTUM;
      forall i | 0 <= i < |classes| ensures classes[i] >= asize <==> Size2Index(classes, asize) <= i {}
    }

    /**
      The first part of `base_alloc_impl`: space from an extent that is large enough in every case, if there
      is one.
     */
    method AllocFromAvail(size: nat, lgAlign: nat) returns (ret: Option<nat>)
      requires Valid() && Pending()
      modifies this`blocks, this`avail, this`allocatedBytes, this`residentBytes, this`ranges
      ensures Valid() && Pending() && (ret.None? <==> old(NoneLarge(size, lgAlign)))
      ensures ret.None? ==> unchanged(this)
      ensures ret.Some? ==> InOrder() && blocks.Keys == old(blocks.Keys)
      ensures ret.Some? ==> exists start | start in old(blocks) ::
                              Granted(old(ranges), ranges, ret.value, Usize(size, lgAlign), lgAlign, start)
    {
      var lg := Max(lgAlign, 4);
      QuantumCeil(lgAlign);
      AlignmentKinds(lg);
      var alignment := Ceil(Pow2(lgAlign), QUANTUM);
      var usize := Ceil(size, alignment);
      CeilLeast(size, alignment);
      var asize := usize + alignment - QUANTUM;
      var i := Size2Index(classes, asize);
      while i < |classes| && avail[i] == {}
        invariant Size2Index(classes, asize) <= i <= |classes| && forall j | i <= j < |classes| :: classes[j] >= asize
        invariant forall j | Size2Index(classes, asize) <= j < i :: avail[j] == {}
      {
        i := i + 1;
      }
      if i == |classes| { return None; }
      var r := TakeFrom(i, usize, lgAlign);
      ret := Some(r);
    }

    /** Some extent of heap `i`, whose class is enough for the request and any gap. */
    method TakeFrom(i: nat, usize: nat, lgAlign: nat) returns (ret: nat)
      requires Valid() && Pending() && i < |classes| && |avail| == |classes| && avail[i] != {}
      requires var a := Pow2(Max(lgAlign, 4)); usize % a == 0 && classes[i] >= usize + a - QUANTUM
      modifies this`blocks, this`avail, this`allocatedBytes, this`residentBytes, this`ranges
      ensures Valid() && Pending() && InOrder() && blocks.Keys == old(blocks.Keys)
      ensures exists start | start in old(blocks) :: Granted(old(ranges), ranges, ret, usize, lgAlign, start)
    {
      var lg := Max(lgAlign, 4);
      var start :| start in avail[i];
      ShelvedTaken(avail, blocks, classes, i, start);
      avail := avail[i := avail[i] - {start}];
      assert BlockOk(start, blocks[start], header);
      AvailFits(start, blocks[start], header, usize, lg);
      ghost var was := blocks;
      ret := BumpAlloc(start, usize, lg);
      MappedKept(mapped, was, header, start, blocks[start]);
      AlignedToo(ret, lgAlign, lg);
      assert start in old(blocks) && Granted(old(ranges), ranges, ret, usize, lgAlign, start);
    }

    /** The size `base_block_alloc` maps for a new block. */
    function BlockSize(size: nat, lgAlign: nat): nat
      reads this`pindLast
    {
      var alignment := Pow2(Max(lgAlign, 4));
      var gap := Ceil(header, alignment) - header;
      CeilLeast(header, alignment);
      var minBlockSize := Ceil(psz2u(header + gap + Ceil(size, alignment)), HUGEPAGE);
      var pindNext := if pindLast + 1 < pindMax then pindLast + 1 else pindLast;
      var nextBlockSize := Ceil(pind2sz(pindNext), HUGEPAGE);
      Max(minBlockSize, nextBlockSize)
    }

    /** It is enough for a header and the request, wherever the block is. */
    lemma BlockFits(size: nat, lgAlign: nat, start: nat)
      requires 0 < header <= HUGEPAGE && (forall x :: psz2u(x) >= x) && start % HUGEPAGE == 0
      ensures var n := BlockSize(size, lgAlign);
        && n % HUGEPAGE == 0 && header <= n && HUGEPAGE <= n
        && Ceil(start + header, Pow2(Max(lgAlign, 4))) + Usize(size, lgAlign) <= start + n
    {
      var alignment := Pow2(Max(lgAlign, 4));
      CeilLeast(header, alignment);
      CeilLeast(psz2u(Ceil(header, alignment) + Ceil(size, alignment)), HUGEPAGE);
      var pindNext := if pindLast + 1 < pindMax then pindLast + 1 else pindLast;
      CeilLeast(pind2sz(pindNext), HUGEPAGE);
      GapFits(start, header, Max(lgAlign, 4));
    }

    /** The least number of huge pages that has room for header and request and is not below the next of the series. */
    lemma BlockLeast(size: nat, lgAlign: nat)
      ensures var need := psz2u(Ceil(header, Pow2(Max(lgAlign, 4))) + Usize(size, lgAlign));
        var next := pind2sz(if pindLast + 1 < pindMax then pindLast + 1 else pindLast);
        var n := BlockSize(size, lgAlign);
        n % HUGEPAGE == 0 && need <= n && next <= n && (n < need + HUGEPAGE || n < next + HUGEPAGE)
    {
      var alignment := Pow2(Max(lgAlign, 4));
      CeilLeast(header, alignment);
      CeilLeast(psz2u(Ceil(header, alignment) + Ceil(size, alignment)), HUGEPAGE);
      CeilLeast(pind2sz(if pindLast + 1 < pindMax then pindLast + 1 else pindLast), HUGEPAGE);
    }

    /** `base_extent_alloc`: the counters for a new block. */
    method CountNew(start: nat, blockSize: nat)
      requires Counted() && AllOk(blocks, header) && start !in blocks && start % HUGEPAGE == 0
      requires blockSize % HUGEPAGE == 0 && header <= blockSize
      modifies this`allocatedBytes, this`residentBytes, this`mappedBytes
      ensures InOrder()
      ensures Tallied(blocks[start := Block(blockSize, start + header, header)], allocatedBytes, residentBytes,
        mappedBytes)
    {
      TalliedNew(blocks, header, start, blockSize, allocatedBytes, residentBytes, mappedBytes);
      allocatedBytes := allocatedBytes + header;
      residentBytes := residentBytes + Ceil(header, PAGE);
      mappedBytes := mappedBytes + blockSize;
    }

    /**
      The part of `base_alloc_impl` without the mutex: a block of the size for the request is mapped.
      `mapping` is what `base_map` answers for a size: nothing, or memory that nobody has.
     */
    method MapBlock(t: nat, size: nat, lgAlign: nat, mapping: nat -> Option<nat>) returns (ok: bool)
      requires Valid() && Pending() && t !in mapped && forall n | mapping(n).Some? ::
        FreshToo(mapped, blocks, mapping(n).value, n)
      modifies this`pindLast, this`mapped
      ensures Valid() && Pending()
      ensures var n := old(BlockSize(size, lgAlign));
        match mapping(n)
        case None => !ok && unchanged(this)
        case Some(start) =>
          ok && mapped == old(mapped)[t := Mapping(start, n, size, lgAlign)] && pindLast == psz2ind(n)
    {
      var blockSize := BlockSize(size, lgAlign);
      var block := mapping(blockSize);
      if block.None? { return false; }
      assert FreshToo(mapped, blocks, block.value, blockSize);
      BlockFits(size, lgAlign, block.value);
      MappedMore(mapped, blocks, header, t, Mapping(block.value, blockSize, size, lgAlign));
      mapped := mapped[t := Mapping(block.value, blockSize, size, lgAlign)];
      pindLast := psz2ind(blockSize);
      return true;
    }

    /** `base_extent_alloc` of a block that is mapped, at a multiple of a huge page clear of the other blocks. */
    method AddBlock(start: nat, blockSize: nat)
      requires Sound(None) && Counted() && MapsFresh(blocks, start, blockSize)
      requires blockSize % HUGEPAGE == 0 && header <= blockSize
      modifies this`blocks, this`allocatedBytes, this`residentBytes, this`mappedBytes
      ensures Sound(Some(start)) && Counted() && InOrder()
      ensures blocks == old(blocks)[start := Block(blockSize, start + header, header)]
    {
      NewLaid(blocks, avail, ranges, classes, header, start, blockSize);
      CountNew(start, blockSize);
      blocks := blocks[start := Block(blockSize, start + header, header)];
    }

    /**
      `base_alloc_impl` with the mutex back, whatever other threads did meanwhile: the block that the thread
      has mapped is filed, and the request it is for is granted from it.
     */
    method AllocFromNew(t: nat) returns (ret: nat)
      requires Valid() && Pending() && t in mapped
      modifies this`blocks, this`mapped, this`avail, this`allocatedBytes, this`residentBytes, this`mappedBytes,
        this`ranges
      ensures Valid() && Pending() && InOrder() && mapped == old(mapped) - {t}
      ensures var m := old(mapped)[t];
        && blocks.Keys == old(blocks.Keys) + {m.start} && blocks[m.start].size == m.size
        && Granted(old(ranges), ranges, ret, Usize(m.request, m.lgAlign), m.lgAlign, m.start)
    {
      var m := mapped[t];
      assert MapsFresh(blocks, m.start, m.size) && Fits(m, header);
      ret := AllocInNew(m.start, m.size, m.request, m.lgAlign);
      MappedFiled(mapped, old(blocks), header, t, blocks[m.start]);
      mapped := mapped - {t};
    }

    /** A block that is large enough for the request is filed, and the request granted from it. */
    method AllocInNew(start: nat, blockSize: nat, size: nat, lgAlign: nat) returns (ret: nat)
      requires Valid() && MapsFresh(blocks, start, blockSize) && blockSize % HUGEPAGE == 0 && header <= blockSize
      requires Ceil(start + header, Pow2(Max(lgAlign, 4))) + Usize(size, lgAlign) <= start + blockSize
      modifies this`blocks, this`avail, this`allocatedBytes, this`residentBytes, this`mappedBytes, this`ranges
      ensures Valid() && InOrder() && start in blocks && blocks[start].size == blockSize
      ensures blocks == old(blocks)[start := blocks[start]]
      ensures Granted(old(ranges), ranges, ret, Usize(size, lgAlign), lgAlign, start)
    {
      UsizeOk(size, lgAlign);
      AddBlock(start, blockSize);
      ret := BumpAlloc(start, Usize(size, lgAlign), Max(lgAlign, 4));
      SetTwice(old(blocks), start, Block(blockSize, start + header, header), blocks[start]);
      AlignedToo(ret, lgAlign, Max(lgAlign, 4));
    }

    /** `base_alloc_impl` where no extent is large enough and no other thread comes in between. */
    method AllocHard(t: nat, size: nat, lgAlign: nat, mapping: nat -> Option<nat>) returns (ret: Option<nat>)
      requires Valid() && Pending() && t !in mapped && forall n | mapping(n).Some? ::
        FreshToo(mapped, blocks, mapping(n).value, n)
      modifies this
      ensures Valid() && Pending() && mapped == old(mapped)
      ensures var start := mapping(old(BlockSize(size, lgAlign)));
        match start
        case None => ret == None && unchanged(this)
        case Some(start) =>
          && ret.Some? && Granted(old(ranges), ranges, ret.value, Usize(size, lgAlign), lgAlign, start)
          && InOrder() && blocks.Keys == old(blocks.Keys) + {start}
          && pindLast == psz2ind(old(BlockSize(size, lgAlign)))
    {
      var ok := MapBlock(t, size, lgAlign, mapping);
      if !ok { return None; }
      assert mapped - {t} == old(mapped);
      var r := AllocFromNew(t);
      ret := Some(r);
    }

    /**
      `base_new`: `base_t` itself, of `baseSize` bytes, is the first allocation. The block is sized for
      an alignment of one quantum, and `base_t` is then aligned to a cache line.
     */
    method FirstBlock(t: nat, baseSize: nat, lgCacheline: nat, mapping: nat -> Option<nat>) returns (ret: Option<nat>)
      requires Valid() && Pending() && blocks == map[] && mapped == map[]
      requires forall n | mapping(n).Some? :: MapsFresh(blocks, mapping(n).value, n)
      requires 4 <= lgCacheline <= 21 && Ceil(header, Pow2(lgCacheline)) + Ceil(baseSize, Pow2(lgCacheline)) <= HUGEPAGE
      modifies this
      ensures Valid() && Pending() && mapped == map[]
      ensures var start := mapping(old(BlockSize(baseSize, 4)));
        match start
        case None => ret == None && unchanged(this)
        case Some(start) =>
          && ret.Some? && Granted(old(ranges), ranges, ret.value, Usize(baseSize, lgCacheline), lgCacheline, start)
          && InOrder() && blocks.Keys == {start}
          && pindLast == psz2ind(old(BlockSize(baseSize, 4)))
    {
      var blockSize := BlockSize(baseSize, 4);
      var block := mapping(blockSize);
      if block.None? { return None; }
      MapFirst(t, block.value, blockSize, baseSize, lgCacheline);
      assert mapped - {t} == map[];
      var r := AllocFromNew(t);
      ret := Some(r);
    }

    /** The block of `base_t`, which fits although it was sized for a smaller alignment. */
    method MapFirst(t: nat, start: nat, blockSize: nat, baseSize: nat, lgCacheline: nat)
      requires Valid() && Pending() && mapped == map[] && MapsFresh(blocks, start, blockSize) &&
        blockSize == BlockSize(baseSize, 4)
      requires 4 <= lgCacheline <= 21 && Ceil(header, Pow2(lgCacheline)) + Ceil(baseSize, Pow2(lgCacheline)) <= HUGEPAGE
      modifies this`pindLast, this`mapped
      ensures Valid() && Pending() && mapped == map[t := Mapping(start, blockSize, baseSize, lgCacheline)]
      ensures pindLast == psz2ind(blockSize)
    {
      BlockFits(baseSize, 4, start);
      FirstFits(start, header, baseSize, blockSize, lgCacheline);
      MappedMore(mapped, blocks, header, t, Mapping(start, blockSize, baseSize, lgCacheline));
      mapped := mapped[t := Mapping(start, blockSize, baseSize, lgCacheline)];
      pindLast := psz2ind(blockSize);
    }
  }
}
