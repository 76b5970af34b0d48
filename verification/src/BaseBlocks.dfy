/** The blocks of a base as values: what is used, resident and mapped, and what may be handed out. */
module BaseBlocks {
  import opened Common
  import opened Arith
  import opened MapSums
  import opened BaseMath

  /** A block's size, the end of its used part (where its extent begins), and the bytes allocated in it. */
  datatype Block = Block(size: nat, next: nat, used: nat)

  /** An allocation: where, how much, and in which block. */
  datatype Range = Range(addr: nat, size: nat, block: nat)

  function Left(start: nat, b: Block): int { start + b.size - b.next }

  ghost predicate BlockOk(start: nat, b: Block, header: nat) {
    start % HUGEPAGE == 0 && b.size % HUGEPAGE == 0 && start + header <= b.next <= start + b.size &&
      b.used <= b.next - start
  }

  ghost predicate AllOk(blocks: map<nat, Block>, header: nat) {
    forall b {:trigger BlockOk(b, blocks[b], header)} | b in blocks :: BlockOk(b, blocks[b], header)
  }

  ghost predicate Apart(b: nat, size: nat, c: nat, size': nat) {
    b + size <= c || c + size' <= b
  }

  ghost predicate Separate(blocks: map<nat, Block>) {
    forall b, c {:trigger Apart(b, blocks[b].size, c, blocks[c].size)} | b in blocks && c in blocks && b != c ::
      Apart(b, blocks[b].size, c, blocks[c].size)
  }

  /** A mapping of `size` bytes at `start`, aligned to a huge page and clear of every block. */
  ghost predicate MapsFresh(blocks: map<nat, Block>, start: nat, size: nat) {
    && start % HUGEPAGE == 0 && start !in blocks
    && (forall b {:trigger Apart(b, blocks[b].size, start, size)} | b in blocks ::
      Apart(b, blocks[b].size, start, size))
  }

  /** The memory a request takes: its size rounded up to its alignment, which is at least the quantum. */
  function Usize(size: nat, lgAlign: nat): nat {
    Ceil(size, Pow2(Max(lgAlign, 4)))
  }

  /** A block that a thread has mapped and not filed yet, and the request it is for. */
  datatype Mapping = Mapping(start: nat, size: nat, request: nat, lgAlign: nat)

  /** It is large enough for a header and the request. */
  ghost predicate Fits(m: Mapping, header: nat) {
    && m.size % HUGEPAGE == 0 && header <= m.size
    && Ceil(m.start + header, Pow2(Max(m.lgAlign, 4))) + Usize(m.request, m.lgAlign) <= m.start + m.size
  }

  /** Blocks that are mapped and not filed fit their requests, and are clear of the filed ones and of each other. */
  ghost predicate MappedOk(mapped: map<nat, Mapping>, blocks: map<nat, Block>, header: nat) {
    && (forall t {:trigger MapsFresh(blocks, mapped[t].start, mapped[t].size)} | t in mapped ::
      MapsFresh(blocks, mapped[t].start, mapped[t].size))
    && (forall t {:trigger Fits(mapped[t], header)} | t in mapped :: Fits(mapped[t], header))
    && MappedApart(mapped)
  }

  ghost predicate MappedApart(mapped: map<nat, Mapping>) {
    forall t, u {:trigger Apart(mapped[t].start, mapped[t].size, mapped[u].start, mapped[u].size)} |
      t in mapped && u in mapped && t != u ::
      mapped[t].start != mapped[u].start && Apart(mapped[t].start, mapped[t].size, mapped[u].start, mapped[u].size)
  }

  /** Memory at `start` that neither a filed block nor a mapped one has. */
  ghost predicate FreshToo(mapped: map<nat, Mapping>, blocks: map<nat, Block>, start: nat, size: nat) {
    && MapsFresh(blocks, start, size)
    && (forall t {:trigger mapped[t]} | t in mapped ::
      mapped[t].start != start && Apart(mapped[t].start, mapped[t].size, start, size))
  }

  lemma MappedMore(mapped: map<nat, Mapping>, blocks: map<nat, Block>, header: nat, t: nat, m: Mapping)
    requires MappedOk(mapped, blocks, header) && t !in mapped && FreshToo(mapped, blocks, m.start, m.size) &&
      Fits(m, header)
    ensures MappedOk(mapped[t := m], blocks, header)
  {
    var mapped' := mapped[t := m];
    forall u, v | u in mapped' && v in mapped' && u != v
      ensures mapped'[u].start != mapped'[v].start
      ensures Apart(mapped'[u].start, mapped'[u].size, mapped'[v].start, mapped'[v].size)
    {
      assert u != t && v != t ==> Apart(mapped[u].start, mapped[u].size, mapped[v].start, mapped[v].size);
    }
    forall u | u in mapped' ensures MapsFresh(blocks, mapped'[u].start, mapped'[u].size) && Fits(mapped'[u], header) {
      assert u != t ==> MapsFresh(blocks, mapped[u].start, mapped[u].size) && Fits(mapped[u], header);
    }
  }

  /** Bumping a filed block does not matter to the mapped ones. */
  lemma MappedKept(mapped: map<nat, Mapping>, blocks: map<nat, Block>, header: nat, start: nat, b: Block)
    requires MappedOk(mapped, blocks, header) && start in blocks && b.size == blocks[start].size
    ensures MappedOk(mapped, blocks[start := b], header)
  {
    var blocks' := blocks[start := b];
    forall t | t in mapped ensures MapsFresh(blocks', mapped[t].start, mapped[t].size) {
      assert MapsFresh(blocks, mapped[t].start, mapped[t].size);
      forall c | c in blocks' ensures Apart(c, blocks'[c].size, mapped[t].start, mapped[t].size) {
        assert Apart(c, blocks[c].size, mapped[t].start, mapped[t].size);
      }
    }
  }

  /** A mapped block is filed: the others stay clear of it. */
  lemma MappedFiled(mapped: map<nat, Mapping>, blocks: map<nat, Block>, header: nat, t: nat, b: Block)
    requires MappedOk(mapped, blocks, header) && t in mapped && b.size == mapped[t].size
    ensures MappedOk(mapped - {t}, blocks[mapped[t].start := b], header)
  {
    var blocks', mapped' := blocks[mapped[t].start := b], mapped - {t};
    forall u | u in mapped' ensures MapsFresh(blocks', mapped'[u].start, mapped'[u].size) && Fits(mapped'[u], header) {
      assert MapsFresh(blocks, mapped[u].start, mapped[u].size) && Fits(mapped[u], header);
      assert Apart(mapped[t].start, mapped[t].size, mapped[u].start, mapped[u].size);
      forall c | c in blocks' ensures Apart(c, blocks'[c].size, mapped[u].start, mapped[u].size) {
        assert c != mapped[t].start ==> Apart(c, blocks[c].size, mapped[u].start, mapped[u].size);
      }
    }
    forall u, v | u in mapped' && v in mapped' && u != v
      ensures mapped'[u].start != mapped'[v].start
      ensures Apart(mapped'[u].start, mapped'[u].size, mapped'[v].start, mapped'[v].size)
    {
      assert Apart(mapped[u].start, mapped[u].size, mapped[v].start, mapped[v].size);
    }
  }

  // ---------- the three counters ----------

  ghost function Used(blocks: map<nat, Block>): map<nat, nat> {
    map b | b in blocks :: blocks[b].used
  }

  /** Pages touched: from the block's start to the end of the used part. */
  ghost function Touched(start: nat, b: Block): nat {
    var p := Ceil(b.next, PAGE); if p >= start then p - start else 0
  }

  ghost function Resident(blocks: map<nat, Block>): map<nat, nat> {
    map b | b in blocks :: Touched(b, blocks[b])
  }

  ghost function Mapped(blocks: map<nat, Block>): map<nat, nat> {
    map b | b in blocks :: blocks[b].size
  }

  lemma {:induction false} SumLe(m: map<nat, nat>, n: map<nat, nat>)
    requires m.Keys == n.Keys && forall k | k in m :: m[k] <= n[k]
    ensures Sum(m) <= Sum(n)
    decreases m.Keys
  {
    if m != map[] {
      var k :| k in m;
      SumOut(m, k);
      SumOut(n, k);
      SumLe(m - {k}, n - {k});
    } else {
      assert n == map[];
    }
  }

  lemma TouchedBounds(start: nat, b: Block, header: nat)
    requires BlockOk(start, b, header)
    ensures b.used <= Touched(start, b) <= b.size && Ceil(b.next, PAGE) == start + Touched(start, b)
  {
    CeilLeast(b.next, PAGE);
    AddMod(start, b.size, HUGEPAGE);
    ModTrans(start + b.size, HUGEPAGE, PAGE);
    CeilMono(b.next, start + b.size, PAGE);
    CeilUnique(start + b.size, PAGE, start + b.size);
  }

  /** Allocated, resident and mapped memory are in order, block by block and so in all. */
  lemma CountersInOrder(blocks: map<nat, Block>, header: nat)
    requires AllOk(blocks, header)
    ensures Sum(Used(blocks)) <= Sum(Resident(blocks)) <= Sum(Mapped(blocks))
  {
    forall b | b in blocks ensures Used(blocks)[b] <= Resident(blocks)[b] <= Mapped(blocks)[b] {
      assert BlockOk(b, blocks[b], header);
      TouchedBounds(b, blocks[b], header);
    }
    SumLe(Used(blocks), Resident(blocks));
    SumLe(Resident(blocks), Mapped(blocks));
  }

  /** One block changes, or is new. */
  lemma UsedSet(blocks: map<nat, Block>, start: nat, b: Block)
    ensures Sum(Used(blocks[start := b])) + Entry(Used(blocks), start) == Sum(Used(blocks)) + b.used
  {
    assert Used(blocks[start := b]) == Used(blocks)[start := b.used];
    SumSet(Used(blocks), start, b.used);
  }

  lemma ResidentSet(blocks: map<nat, Block>, start: nat, b: Block)
    ensures Sum(Resident(blocks[start := b])) + Entry(Resident(blocks), start) ==
      Sum(Resident(blocks)) + Touched(start, b)
  {
    assert Resident(blocks[start := b]) == Resident(blocks)[start := Touched(start, b)];
    SumSet(Resident(blocks), start, Touched(start, b));
  }

  lemma MappedSet(blocks: map<nat, Block>, start: nat, b: Block)
    ensures Sum(Mapped(blocks[start := b])) + Entry(Mapped(blocks), start) == Sum(Mapped(blocks)) + b.size
  {
    assert Mapped(blocks[start := b]) == Mapped(blocks)[start := b.size];
    SumSet(Mapped(blocks), start, b.size);
  }

  // ---------- bumping ----------

  /** A block after `size` bytes were taken at `ret`. */
  function Bumped(b: Block, ret: nat, size: nat): Block {
    Block(b.size, ret + size, b.used + size)
  }

  /** `base_extent_bump_alloc_helper`: what fits keeps the block in order, and stays on the quantum. */
  lemma BumpOk(start: nat, b: Block, header: nat, ret: nat, size: nat, k: nat)
    requires BlockOk(start, b, header) && k >= 4 && ret == Ceil(b.next, Pow2(k)) && size % Pow2(k) == 0 &&
      ret + size <= start + b.size
    ensures BlockOk(start, Bumped(b, ret, size), header) && Bumped(b, ret, size).next % QUANTUM == 0 &&
      b.next <= ret && ret % Pow2(k) == 0
  {
    CeilLeast(b.next, Pow2(k));
    AlignmentKinds(k);
    AddMod(ret, size, Pow2(k));
    ModTrans(ret + size, Pow2(k), QUANTUM);
  }

  /** What is left of a block is a multiple of the quantum. */
  lemma LeftQuantum(start: nat, b: Block, header: nat)
    requires BlockOk(start, b, header) && b.next % QUANTUM == 0 && Left(start, b) > 0
    ensures Left(start, b) >= QUANTUM
  {
    AddMod(start, b.size, HUGEPAGE);
    ModTrans(start + b.size, HUGEPAGE, QUANTUM);
    SubMod(start + b.size, b.next, QUANTUM);
  }

  lemma LeftOver(start: nat, b: Block, header: nat)
    requires BlockOk(start, b, header) && b.next % QUANTUM == 0
    ensures Left(start, b) <= 0 || Left(start, b) >= QUANTUM
  {
    if Left(start, b) > 0 { LeftQuantum(start, b, header); }
  }

  /** An extent as large as `asize` fits, wherever on the quantum it begins. */
  lemma AvailFits(start: nat, b: Block, header: nat, usize: nat, k: nat)
    requires BlockOk(start, b, header) && b.next % QUANTUM == 0 && k >= 4 && Left(start, b) >= usize + Pow2(k) - QUANTUM
    ensures Ceil(b.next, Pow2(k)) + usize <= start + b.size
  {
    var a := Pow2(k);
    CeilLeast(b.next, a);
    AlignmentKinds(k);
    ModTrans(Ceil(b.next, a), a, QUANTUM);
    SubMod(Ceil(b.next, a), b.next, QUANTUM);
    QuantumApart(Ceil(b.next, a) - b.next, a);
  }

  /** A bump adds its size to what is allocated, and the pages it reaches into to what is resident. */
  lemma CountersBumped(blocks: map<nat, Block>, header: nat, start: nat, b: Block, ret: nat, size: nat)
    requires AllOk(blocks, header) && start in blocks && b == blocks[start] && b.next <= ret &&
      BlockOk(start, Bumped(b, ret, size), header)
    ensures var blocks' := blocks[start := Bumped(b, ret, size)];
      && Sum(Used(blocks')) == Sum(Used(blocks)) + size && Sum(Mapped(blocks')) == Sum(Mapped(blocks))
      && Sum(Resident(blocks')) == Sum(Resident(blocks)) + (Ceil(ret + size, PAGE) - Ceil(b.next, PAGE))
      && AllOk(blocks', header) && Sum(Used(blocks')) <= Sum(Resident(blocks')) <= Sum(Mapped(blocks'))
    ensures Ceil(b.next, PAGE) <= Ceil(ret + size, PAGE)
  {
    var b', blocks' := Bumped(b, ret, size), blocks[start := Bumped(b, ret, size)];
    assert BlockOk(start, b, header);
    UsedSet(blocks, start, b');
    ResidentSet(blocks, start, b');
    MappedSet(blocks, start, b');
    TouchedBounds(start, b, header);
    TouchedBounds(start, b', header);
    CeilMono(b.next, ret + size, PAGE);
    AllOkSet(blocks, header, start, blocks'[start]);
    CountersInOrder(blocks', header);
  }

  lemma TouchedNew(start: nat, header: nat, size: nat)
    requires start % HUGEPAGE == 0 && size % HUGEPAGE == 0 && header <= size
    ensures var b := Block(size, start + header, header);
      BlockOk(start, b, header) && Touched(start, b) == Ceil(header, PAGE)
  {
    TouchedBounds(start, Block(size, start + header, header), header);
    ModTrans(start, HUGEPAGE, PAGE);
    CeilShift(start, header, PAGE);
  }

  /** A new block adds its header and its size. */
  lemma CountersNew(blocks: map<nat, Block>, header: nat, start: nat, size: nat)
    requires AllOk(blocks, header) && start !in blocks && start % HUGEPAGE == 0 && size % HUGEPAGE == 0 &&
      header <= size
    ensures var blocks' := blocks[start := Block(size, start + header, header)];
      && Sum(Used(blocks')) == Sum(Used(blocks)) + header && Sum(Mapped(blocks')) == Sum(Mapped(blocks)) + size
      && Sum(Resident(blocks')) == Sum(Resident(blocks)) + Ceil(header, PAGE)
      && AllOk(blocks', header) && Sum(Used(blocks')) <= Sum(Resident(blocks')) <= Sum(Mapped(blocks'))
  {
    var b := Block(size, start + header, header);
    TouchedNew(start, header, size);
    SumsNew(blocks, start, b);
    AllOkSet(blocks, header, start, b);
    CountersInOrder(blocks[start := b], header);
  }

  lemma SumsNew(blocks: map<nat, Block>, start: nat, b: Block)
    requires start !in blocks
    ensures Sum(Used(blocks[start := b])) == Sum(Used(blocks)) + b.used
    ensures Sum(Resident(blocks[start := b])) == Sum(Resident(blocks)) + Touched(start, b)
    ensures Sum(Mapped(blocks[start := b])) == Sum(Mapped(blocks)) + b.size
  {
    UsedSet(blocks, start, b);
    ResidentSet(blocks, start, b);
    MappedSet(blocks, start, b);
  }

  /** The three counters are the sums over the blocks. */
  ghost predicate Tallied(blocks: map<nat, Block>, inUse: nat, resident: nat, mapped: nat) {
    inUse == Sum(Used(blocks)) && resident == Sum(Resident(blocks)) && mapped == Sum(Mapped(blocks))
  }

  lemma TalliedBumped(blocks: map<nat, Block>, header: nat, start: nat, b: Block, ret: nat, size: nat,
      inUse: nat, resident: nat, mapped: nat)
    requires AllOk(blocks, header) && start in blocks && b == blocks[start] && b.next <= ret
    requires BlockOk(start, Bumped(b, ret, size), header) && Tallied(blocks, inUse, resident, mapped)
    ensures var inUse', resident' := inUse + size, resident + (Ceil(ret + size, PAGE) - Ceil(b.next, PAGE));
      && resident <= resident' && Tallied(blocks[start := Bumped(b, ret, size)], inUse', resident', mapped)
      && inUse' <= resident' <= mapped
  {
    CountersBumped(blocks, header, start, b, ret, size);
  }

  lemma TalliedNew(blocks: map<nat, Block>, header: nat, start: nat, size: nat, inUse: nat, resident: nat, mapped: nat)
    requires AllOk(blocks, header) && start !in blocks && start % HUGEPAGE == 0 && size % HUGEPAGE == 0 &&
      header <= size
    requires Tallied(blocks, inUse, resident, mapped)
    ensures var inUse', resident', mapped' := inUse + header, resident + Ceil(header, PAGE), mapped + size;
      && Tallied(blocks[start := Block(size, start + header, header)], inUse', resident', mapped')
      && inUse' <= resident' <= mapped'
  {
    CountersNew(blocks, header, start, size);
  }

  // ---------- allocations ----------

  ghost predicate Inside(r: Range, blocks: map<nat, Block>, header: nat) {
    r.block in blocks && r.block + header <= r.addr && r.addr + r.size <= blocks[r.block].next
  }

  ghost predicate Clear(r: Range, s: Range) {
    r.addr + r.size <= s.addr || s.addr + s.size <= r.addr
  }

  /** Every allocation is in the used part of its block, and no two overlap. */
  ghost predicate RangesOk(ranges: set<Range>, blocks: map<nat, Block>, header: nat) {
    && (forall r {:trigger Inside(r, blocks, header)} | r in ranges :: Inside(r, blocks, header))
    && (forall r, s {:trigger Clear(r, s)} | r in ranges && s in ranges && r != s :: Clear(r, s))
  }

  /** A bump hands out memory that no earlier allocation has. */
  lemma BumpClear(ranges: set<Range>, blocks: map<nat, Block>, header: nat, start: nat, ret: nat, size: nat)
    requires RangesOk(ranges, blocks, header) && Separate(blocks) && start in blocks && AllOk(blocks, header)
    requires blocks[start].next <= ret && ret + size <= start + blocks[start].size
    ensures var r := Range(ret, size, start);
      && RangesOk(ranges + {r}, blocks[start := Bumped(blocks[start], ret, size)], header)
      && forall s | s in ranges :: Clear(r, s)
  {
    var r, blocks' := Range(ret, size, start), blocks[start := Bumped(blocks[start], ret, size)];
    assert BlockOk(start, blocks[start], header);
    forall s | s in ranges ensures Clear(r, s) && Inside(s, blocks', header) {
      assert Inside(s, blocks, header) && BlockOk(s.block, blocks[s.block], header);
      assert s.block != start ==> Apart(start, blocks[start].size, s.block, blocks[s.block].size);
    }
  }

  // ---------- the heaps of available extents ----------

  /** The heap a block's extent belongs in: by the largest class it holds, and in none if nothing is left. */
  function Shelf(classes: seq<nat>, start: nat, b: Block): int
    requires ClassesOk(classes)
  {
    if Left(start, b) >= QUANTUM then FloorIndex(classes, Left(start, b)) else -1
  }

  predicate OnQuantum(b: Block) { b.next % QUANTUM == 0 }

  /** Every extent with something left is in its heap and on the quantum, but for the one in hand. */
  ghost predicate Shelved(avail: seq<set<nat>>, blocks: map<nat, Block>, classes: seq<nat>, hand: Option<nat>) {
    && ClassesOk(classes) && |avail| == |classes|
    && (forall i, b {:trigger b in avail[i]} | 0 <= i < |avail| ::
      b in avail[i] <==> b in blocks && hand != Some(b) && Shelf(classes, b, blocks[b]) == i)
    && (forall b {:trigger OnQuantum(blocks[b])} | b in blocks && hand != Some(b) :: OnQuantum(blocks[b]))
  }

  /** A new block, in hand. */
  lemma ShelvedNew(avail: seq<set<nat>>, blocks: map<nat, Block>, classes: seq<nat>, start: nat, b: Block)
    requires Shelved(avail, blocks, classes, None) && start !in blocks
    ensures Shelved(avail, blocks[start := b], classes, Some(start))
  {
  }

  /** An extent taken from its heap. */
  lemma ShelvedTaken(avail: seq<set<nat>>, blocks: map<nat, Block>, classes: seq<nat>, i: nat, start: nat)
    requires Shelved(avail, blocks, classes, None) && i < |avail| && start in avail[i]
    ensures Shelved(avail[i := avail[i] - {start}], blocks, classes, Some(start)) && start in blocks &&
      Left(start, blocks[start]) >= classes[i]
    ensures OnQuantum(blocks[start])
  {
  }

  /** The bumped extent back in the heap of what is left of it. */
  lemma ShelvedBack(avail: seq<set<nat>>, blocks: map<nat, Block>, classes: seq<nat>, start: nat, b: Block)
    requires Shelved(avail, blocks, classes, Some(start)) && start in blocks && b.next % QUANTUM == 0
    ensures var i := Shelf(classes, start, b);
      Shelved(if i >= 0 then avail[i := avail[i] + {start}] else avail, blocks[start := b], classes, None)
  {
  }

  /** A request takes the least multiple of its alignment, which is 16 at least, that is not below its size. */
  lemma UsizeOk(size: nat, lgAlign: nat)
    ensures Usize(size, lgAlign) % Pow2(Max(lgAlign, 4)) == 0
    ensures size <= Usize(size, lgAlign) < size + if lgAlign < 4 then 16 else Pow2(lgAlign)
  {
    assert Pow2(4) == 2 * Pow2(3) && Pow2(3) == 8;
    CeilLeast(size, Pow2(Max(lgAlign, 4)));
  }

  /** `usize` bytes of block `start` at `ret`, aligned as asked for and clear of every earlier allocation. */
  ghost predicate Granted(before: set<Range>, after: set<Range>, ret: nat, usize: nat, lgAlign: nat, start: nat) {
    && ret % Pow2(lgAlign) == 0 && after == before + {Range(ret, usize, start)}
    && (forall s | s in before :: Clear(Range(ret, usize, start), s))
  }

  lemma AlignedToo(r: nat, j: nat, k: nat)
    requires j <= k && r % Pow2(k) == 0
    ensures r % Pow2(j) == 0
  {
    Pow2Add(k - j, j);
    MulMod(Pow2(k - j), Pow2(j));
    ModTrans(r, Pow2(k), Pow2(j));
  }

  /** A new block, clear of the others, changes nothing for what was handed out. */
  lemma RangesKept(ranges: set<Range>, blocks: map<nat, Block>, header: nat, start: nat, b: Block)
    requires RangesOk(ranges, blocks, header) && start !in blocks
    ensures RangesOk(ranges, blocks[start := b], header)
  {
    forall r | r in ranges ensures Inside(r, blocks[start := b], header) {
      assert Inside(r, blocks, header);
    }
  }

  lemma SeparateNew(blocks: map<nat, Block>, start: nat, b: Block)
    requires Separate(blocks) && MapsFresh(blocks, start, b.size)
    ensures Separate(blocks[start := b])
  {
    var blocks' := blocks[start := b];
    forall c, d | c in blocks' && d in blocks' && c != d ensures Apart(c, blocks'[c].size, d, blocks'[d].size) {
      assert c != start && d != start ==> Apart(c, blocks[c].size, d, blocks[d].size);
      assert c in blocks ==> Apart(c, blocks[c].size, start, b.size);
      assert d in blocks ==> Apart(d, blocks[d].size, start, b.size);
    }
  }

  lemma SeparateSet(blocks: map<nat, Block>, start: nat, b: Block)
    requires Separate(blocks) && start in blocks && b.size == blocks[start].size
    ensures Separate(blocks[start := b])
  {
    var blocks' := blocks[start := b];
    forall c, d | c in blocks' && d in blocks' && c != d ensures Apart(c, blocks'[c].size, d, blocks'[d].size) {
      assert Apart(c, blocks[c].size, d, blocks[d].size);
    }
  }

  lemma SetTwice(blocks: map<nat, Block>, start: nat, a: Block, b: Block)
    ensures blocks[start := a][start := b] == blocks[start := b]
  {
  }

  // ---------- all of it together ----------

  /** Blocks in order and apart, extents in their heaps, allocations apart. */
  ghost predicate Laid(blocks: map<nat, Block>, avail: seq<set<nat>>, ranges: set<Range>,
      classes: seq<nat>, header: nat, hand: Option<nat>) {
    AllOk(blocks, header) && Separate(blocks) && Shelved(avail, blocks, classes, hand) &&
      RangesOk(ranges, blocks, header)
  }

  /** The heaps with the extent of `start` back in the one it belongs in. */
  function Reshelved(avail: seq<set<nat>>, classes: seq<nat>, start: nat, b: Block): seq<set<nat>>
    requires ClassesOk(classes) && |avail| == |classes|
  {
    var i := Shelf(classes, start, b); if i >= 0 then avail[i := avail[i] + {start}] else avail
  }

  lemma AllOkSet(blocks: map<nat, Block>, header: nat, start: nat, b: Block)
    requires AllOk(blocks, header) && BlockOk(start, b, header)
    ensures AllOk(blocks[start := b], header)
  {
    var blocks' := blocks[start := b];
    forall c | c in blocks' ensures BlockOk(c, blocks'[c], header) {
      assert c != start ==> BlockOk(c, blocks[c], header);
    }
  }

  /** Bumping the block in hand. */
  lemma BumpLaid(blocks: map<nat, Block>, avail: seq<set<nat>>, ranges: set<Range>, classes: seq<nat>, header: nat,
      start: nat, ret: nat, usize: nat, lgAlign: nat)
    requires Laid(blocks, avail, ranges, classes, header, Some(start)) && start in blocks && lgAlign >= 4
    requires usize % Pow2(lgAlign) == 0 && ret == Ceil(blocks[start].next, Pow2(lgAlign))
    requires ret + usize <= start + blocks[start].size
    ensures var b := Bumped(blocks[start], ret, usize); var r := Range(ret, usize, start);
      && Laid(blocks[start := b], Reshelved(avail, classes, start, b), ranges + {r}, classes, header, None)
      && BlockOk(start, b, header) && blocks[start].next <= ret && (Left(start, b) <= 0 || Left(start, b) >= QUANTUM)
    ensures Granted(ranges, ranges + {Range(ret, usize, start)}, ret, usize, lgAlign, start)
  {
    var b := Bumped(blocks[start], ret, usize);
    assert BlockOk(start, blocks[start], header);
    BumpOk(start, blocks[start], header, ret, usize, lgAlign);
    BumpClear(ranges, blocks, header, start, ret, usize);
    ShelvedBack(avail, blocks, classes, start, b);
    LeftOver(start, b, header);
    AllOkSet(blocks, header, start, b);
    SeparateSet(blocks, start, b);
  }

  /** A block that was just mapped, in hand. */
  lemma NewLaid(blocks: map<nat, Block>, avail: seq<set<nat>>, ranges: set<Range>, classes: seq<nat>, header: nat,
      start: nat, size: nat)
    requires Laid(blocks, avail, ranges, classes, header, None) && MapsFresh(blocks, start, size)
    requires size % HUGEPAGE == 0 && header <= size
    ensures Laid(blocks[start := Block(size, start + header, header)], avail, ranges, classes, header, Some(start))
  {
    var b := Block(size, start + header, header);
    assert BlockOk(start, b, header);
    AllOkSet(blocks, header, start, b);
    ShelvedNew(avail, blocks, classes, start, b);
    RangesKept(ranges, blocks, header, start, b);
    SeparateNew(blocks, start, b);
  }
}
