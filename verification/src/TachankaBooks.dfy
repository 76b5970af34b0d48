/** What the records of blocks and of allocation types say about each other and about the ranking. */
module TachankaBooks {
  import opened MapSums
  import opened AvlWeight
  import opened RankingBuckets

  /** `struct tblock`; the type is named by its hash, since types are never freed. */
  datatype Block = Block(size: nat, hash: nat, hot: bool)

  /** `struct ttype`, without the state of the hotness formula. */
  datatype Kind = Kind(num: nat, total: nat, dram: nat, f: real)

  /** The three numbers a type keeps about its blocks. */
  datatype Measure = COUNT | SIZE | DRAM

  function OfBlock(m: Measure, b: Block): nat {
    match m
    case COUNT => 1
    case SIZE => b.size
    case DRAM => if b.hot then b.size else 0
  }

  function OfKind(m: Measure, t: Kind): nat {
    match m
    case COUNT => t.num
    case SIZE => t.total
    case DRAM => t.dram
  }

  /** What each block adds to a type's number. */
  ghost function Parts(blocks: map<nat, Block>, hash: nat, m: Measure): map<nat, nat> {
    map a | a in blocks :: if blocks[a].hash == hash then OfBlock(m, blocks[a]) else 0
  }

  /** Every block's type exists, and every type's numbers are the sums over its blocks. */
  ghost predicate Balanced(blocks: map<nat, Block>, kinds: map<nat, Kind>) {
    && (forall a | a in blocks :: blocks[a].hash in kinds)
    && (forall h, m | h in kinds :: OfKind(m, kinds[h]) == Sum(Parts(blocks, h, m)))
  }

  /** What each type has under a quantified hotness. */
  ghost function Levels(kinds: map<nat, Kind>, quant: real -> real, q: real): map<nat, nat> {
    map h | h in kinds :: if quant(kinds[h].f) == q then kinds[h].total else 0
  }

  /** The size of every block. */
  ghost function Sizes(blocks: map<nat, Block>): map<nat, nat> {
    map a | a in blocks :: blocks[a].size
  }

  // ---------- one block more ----------

  /** A type after one more block. */
  function Grown(t: Kind, b: Block): Kind {
    t.(num := t.num + 1, total := t.total + b.size, dram := t.dram + if b.hot then b.size else 0)
  }

  /** A type after one block less. */
  function Shrunk(t: Kind, b: Block): Kind
    requires t.num >= 1 && t.total >= b.size && (b.hot ==> t.dram >= b.size)
  {
    t.(num := t.num - 1, total := t.total - b.size, dram := t.dram - if b.hot then b.size else 0)
  }

  lemma PartsIn(blocks: map<nat, Block>, a: nat, b: Block, h: nat, m: Measure)
    requires a !in blocks
    ensures Sum(Parts(blocks[a := b], h, m)) == Sum(Parts(blocks, h, m)) + if b.hash == h then OfBlock(m, b) else 0
  {
    var v := if b.hash == h then OfBlock(m, b) else 0;
    assert Parts(blocks[a := b], h, m) == Parts(blocks, h, m)[a := v];
    SumSet(Parts(blocks, h, m), a, v);
  }

  lemma PartsOut(blocks: map<nat, Block>, a: nat, h: nat, m: Measure)
    requires a in blocks
    ensures Sum(Parts(blocks, h, m)) == Sum(Parts(blocks - {a}, h, m)) + if blocks[a].hash == h
      then OfBlock(m, blocks[a]) else 0
  {
    assert Parts(blocks, h, m) - {a} == Parts(blocks - {a}, h, m);
    SumOut(Parts(blocks, h, m), a);
  }

  /** A type without blocks has nothing to add up. */
  lemma NewKind(blocks: map<nat, Block>, kinds: map<nat, Kind>, h: nat, f: real)
    requires Balanced(blocks, kinds) && h !in kinds
    ensures Balanced(blocks, kinds[h := Kind(0, 0, 0, f)])
  {
    var kinds' := kinds[h := Kind(0, 0, 0, f)];
    forall g, m | g in kinds' ensures OfKind(m, kinds'[g]) == Sum(Parts(blocks, g, m)) {
      if g == h { SumZero(Parts(blocks, h, m)); }
    }
  }

  lemma BlockIn(blocks: map<nat, Block>, kinds: map<nat, Kind>, a: nat, b: Block)
    requires Balanced(blocks, kinds) && a !in blocks && b.hash in kinds
    ensures Balanced(blocks[a := b], kinds[b.hash := Grown(kinds[b.hash], b)])
  {
    var kinds' := kinds[b.hash := Grown(kinds[b.hash], b)];
    forall h, m | h in kinds' ensures OfKind(m, kinds'[h]) == Sum(Parts(blocks[a := b], h, m)) {
      PartsIn(blocks, a, b, h, m);
    }
  }

  lemma BlockOut(blocks: map<nat, Block>, kinds: map<nat, Kind>, a: nat)
    requires Balanced(blocks, kinds) && a in blocks
    ensures var b := blocks[a]; var t := kinds[b.hash];
      && t.num >= 1 && t.total >= b.size && (b.hot ==> t.dram >= b.size)
      && Balanced(blocks - {a}, kinds[b.hash := Shrunk(t, b)])
  {
    var b := blocks[a];
    var t := kinds[b.hash];
    forall m ensures OfKind(m, t) >= OfBlock(m, b) { PartsOut(blocks, a, b.hash, m); }
    assert OfKind(COUNT, t) >= 1 && OfKind(SIZE, t) >= b.size && OfKind(DRAM, t) >= OfBlock(DRAM, b);
    var kinds' := kinds[b.hash := Shrunk(t, b)];
    forall h, m | h in kinds' ensures OfKind(m, kinds'[h]) == Sum(Parts(blocks - {a}, h, m)) {
      PartsOut(blocks, a, h, m);
    }
  }

  /** Counting a block that is not recorded spoils the count. */
  lemma CountedTwice(blocks: map<nat, Block>, kinds: map<nat, Kind>, b: Block)
    requires Balanced(blocks, kinds) && b.hash in kinds
    ensures !Balanced(blocks, kinds[b.hash := Grown(kinds[b.hash], b)])
  {
    var t := kinds[b.hash];
    assert OfKind(COUNT, t) == Sum(Parts(blocks, b.hash, COUNT)) && OfKind(COUNT, Grown(t, b)) == t.num + 1;
    assert b.hash in kinds[b.hash := Grown(t, b)];
  }

  /** A type's hotness is none of its blocks' business. */
  lemma Warmed(blocks: map<nat, Block>, kinds: map<nat, Kind>, h: nat, f: real)
    requires Balanced(blocks, kinds) && h in kinds
    ensures Balanced(blocks, kinds[h := kinds[h].(f := f)])
  {
    var kinds' := kinds[h := kinds[h].(f := f)];
    forall g, m | g in kinds' ensures OfKind(m, kinds'[g]) == Sum(Parts(blocks, g, m)) {
      assert OfKind(m, kinds'[g]) == OfKind(m, kinds[g]);
    }
  }

  // ---------- the ranking's side ----------

  /** A change to one type moves its memory between hotness levels. */
  lemma LevelSet(kinds: map<nat, Kind>, quant: real -> real, h: nat, t: Kind, q: real)
    requires h in kinds
    ensures Sum(Levels(kinds[h := t], quant, q)) + (if quant(kinds[h].f) == q then kinds[h].total else 0)
      == Sum(Levels(kinds, quant, q)) + if quant(t.f) == q then t.total else 0
  {
    var v := if quant(t.f) == q then t.total else 0;
    assert Levels(kinds[h := t], quant, q) == Levels(kinds, quant, q)[h := v];
    SumSet(Levels(kinds, quant, q), h, v);
  }

  lemma LevelNew(kinds: map<nat, Kind>, quant: real -> real, h: nat, f: real, q: real)
    requires h !in kinds
    ensures Sum(Levels(kinds[h := Kind(0, 0, 0, f)], quant, q)) == Sum(Levels(kinds, quant, q))
  {
    assert Levels(kinds[h := Kind(0, 0, 0, f)], quant, q) == Levels(kinds, quant, q)[h := 0];
    SumSet(Levels(kinds, quant, q), h, 0);
  }

  lemma LevelHolds(kinds: map<nat, Kind>, quant: real -> real, h: nat)
    requires h in kinds
    ensures kinds[h].total <= Sum(Levels(kinds, quant, quant(kinds[h].f)))
  {
    SumAtLeast(Levels(kinds, quant, quant(kinds[h].f)), h);
  }

  lemma SizesIn(blocks: map<nat, Block>, a: nat, b: Block)
    requires a !in blocks
    ensures Sum(Sizes(blocks[a := b])) == Sum(Sizes(blocks)) + b.size
  {
    assert Sizes(blocks[a := b]) == Sizes(blocks)[a := b.size];
    SumSet(Sizes(blocks), a, b.size);
  }

  lemma SizesOut(blocks: map<nat, Block>, a: nat)
    requires a in blocks
    ensures Sum(Sizes(blocks)) == Sum(Sizes(blocks - {a})) + blocks[a].size
  {
    assert Sizes(blocks) - {a} == Sizes(blocks - {a});
    SumOut(Sizes(blocks), a);
  }

  /** A type holds at least what any one of its blocks does. */
  lemma KindHolds(blocks: map<nat, Block>, kinds: map<nat, Kind>, a: nat)
    requires Balanced(blocks, kinds) && a in blocks
    ensures blocks[a].hash in kinds && kinds[blocks[a].hash].total >= blocks[a].size
  {
    var h := blocks[a].hash;
    assert OfKind(SIZE, kinds[h]) == Sum(Parts(blocks, h, SIZE));
    SumAtLeast(Parts(blocks, h, SIZE), a);
  }

  // ---------- the events on values ----------

  /** The types after a block is registered; a new type starts at hotness `f`. */
  function Enrolled(kinds: map<nat, Kind>, b: Block, f: real): map<nat, Kind> {
    kinds[b.hash := Grown(if b.hash in kinds then kinds[b.hash] else Kind(0, 0, 0, f), b)]
  }

  /** Registering a block keeps the books exactly where it is recorded. */
  lemma EnrolledBalanced(blocks: map<nat, Block>, kinds: map<nat, Kind>, a: nat, b: Block, f: real)
    requires Balanced(blocks, kinds)
    ensures a !in blocks ==> Balanced(blocks[a := b], Enrolled(kinds, b, f))
    ensures a in blocks ==> !Balanced(blocks, Enrolled(kinds, b, f))
  {
    var base := if b.hash in kinds then kinds else kinds[b.hash := Kind(0, 0, 0, f)];
    if b.hash !in kinds { NewKind(blocks, kinds, b.hash, f); }
    assert Enrolled(kinds, b, f) == base[b.hash := Grown(base[b.hash], b)];
    if a in blocks { CountedTwice(blocks, base, b); } else { BlockIn(blocks, base, a, b); }
  }

  lemma EnrolledLevels(kinds: map<nat, Kind>, quant: real -> real, b: Block, f: real)
    ensures var kinds' := Enrolled(kinds, b, f);
      forall q ::
        Sum(Levels(kinds', quant, q)) == Sum(Levels(kinds, quant, q)) + if q == quant(kinds'[b.hash].f) then b.size
        else 0
  {
    var kinds' := Enrolled(kinds, b, f);
    var base := if b.hash in kinds then kinds else kinds[b.hash := Kind(0, 0, 0, f)];
    assert kinds' == base[b.hash := Grown(base[b.hash], b)];
    forall q ensures Sum(Levels(kinds', quant, q)) == Sum(Levels(kinds, quant, q)) + if q == quant(kinds'[b.hash].f)
      then b.size else 0 {
      if b.hash !in kinds { LevelNew(kinds, quant, b.hash, f, q); }
      LevelSet(base, quant, b.hash, Grown(base[b.hash], b), q);
    }
  }

  /** Taking a block out takes its size off its type's level. */
  lemma DroppedLevels(kinds: map<nat, Kind>, quant: real -> real, h: nat, b: Block)
    requires h in kinds && kinds[h].num >= 1 && kinds[h].total >= b.size && (b.hot ==> kinds[h].dram >= b.size)
    ensures var kinds' := kinds[h := Shrunk(kinds[h], b)];
      forall q ::
        Sum(Levels(kinds', quant, q)) == Sum(Levels(kinds, quant, q)) - if q == quant(kinds[h].f) then b.size else 0
    ensures b.size <= Sum(Levels(kinds, quant, quant(kinds[h].f)))
  {
    var kinds' := kinds[h := Shrunk(kinds[h], b)];
    forall q ensures Sum(Levels(kinds', quant, q)) == Sum(Levels(kinds, quant, q)) - if q == quant(kinds[h].f)
      then b.size else 0 {
      LevelSet(kinds, quant, h, Shrunk(kinds[h], b), q);
    }
    LevelHolds(kinds, quant, h);
  }

  /** A new hotness moves a type's memory from one level to another. */
  lemma WarmedLevels(kinds: map<nat, Kind>, quant: real -> real, h: nat, f: real)
    requires h in kinds
    ensures var t := kinds[h];
      forall q :: Sum(Levels(kinds[h := t.(f := f)], quant, q))
        == Sum(Levels(kinds, quant, q)) - (if q == quant(t.f) then t.total else 0) + if q == quant(f) then t.total
          else 0
    ensures kinds[h].total <= Sum(Levels(kinds, quant, quant(kinds[h].f)))
  {
    var t := kinds[h];
    forall q ensures Sum(Levels(kinds[h := t.(f := f)], quant, q))
      == Sum(Levels(kinds, quant, q)) - (if q == quant(t.f) then t.total else 0) + if q == quant(f) then t.total else 0
    {
      LevelSet(kinds, quant, h, t.(f := f), q);
    }
    LevelHolds(kinds, quant, h);
  }

  // ---------- ranking and records together ----------

  /** The ranking holds under each hotness the memory of the types that have it, and in all the memory of the blocks. */
  ghost predicate Ranked(s: seq<(Agg, nat)>, blocks: map<nat, Block>, kinds: map<nat, Kind>, quant: real -> real) {
    (forall q :: Bucket(s, q) == Sum(Levels(kinds, quant, q))) && Total(s) == Sum(Sizes(blocks))
  }

  lemma RankedIn(s: seq<(Agg, nat)>, s': seq<(Agg, nat)>, blocks: map<nat, Block>, kinds: map<nat, Kind>,
      quant: real -> real, a: nat, b: Block, f: real)
    requires Ranked(s, blocks, kinds, quant) && a !in blocks &&
      Added(s, s', quant(Enrolled(kinds, b, f)[b.hash].f), b.size)
    ensures Ranked(s', blocks[a := b], Enrolled(kinds, b, f), quant)
  {
    EnrolledLevels(kinds, quant, b, f);
    SizesIn(blocks, a, b);
  }

  /** A type's memory, and so each of its blocks, is in the ranking under the type's hotness. */
  lemma HeldInRanking(s: seq<(Agg, nat)>, blocks: map<nat, Block>, kinds: map<nat, Kind>, quant: real -> real, h: nat)
    requires Ranked(s, blocks, kinds, quant) && h in kinds
    ensures kinds[h].total <= Bucket(s, quant(kinds[h].f))
  {
    LevelHolds(kinds, quant, h);
  }

  lemma RankedOut(s: seq<(Agg, nat)>, s': seq<(Agg, nat)>, blocks: map<nat, Block>, kinds: map<nat, Kind>,
      quant: real -> real, a: nat, b: Block, t: Kind)
    requires Ranked(s, blocks, kinds, quant) && a in blocks && b == blocks[a] && b.hash in kinds && t == kinds[b.hash]
    requires t.num >= 1 && t.total >= b.size && (b.hot ==> t.dram >= b.size) && Added(s', s, quant(t.f), b.size)
    ensures Ranked(s', blocks - {a}, kinds[b.hash := Shrunk(t, b)], quant)
  {
    DroppedLevels(kinds, quant, b.hash, b);
    SizesOut(blocks, a);
  }

  lemma RankedMoved(s: seq<(Agg, nat)>, s1: seq<(Agg, nat)>, s2: seq<(Agg, nat)>, blocks: map<nat, Block>,
      kinds: map<nat, Kind>, quant: real -> real, h: nat, f: real)
    requires Ranked(s, blocks, kinds, quant) && h in kinds
    requires Added(s1, s, quant(kinds[h].f), kinds[h].total) && Added(s1, s2, quant(f), kinds[h].total)
    ensures Ranked(s2, blocks, kinds[h := kinds[h].(f := f)], quant)
  {
    WarmedLevels(kinds, quant, h, f);
  }
}
