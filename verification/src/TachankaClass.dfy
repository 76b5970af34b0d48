/** The records of blocks and allocation types, and the events that change them. */
module TachankaClass {
  import opened RankingBuckets
  import opened RankingClass
  import opened TachankaBooks

  /** Hotness of a new type: four coefficients of ten each. */
  const INITIAL_HOTNESS: real := 4.0 * 10.0

  datatype Found = Nothing | At(key: nat)

  /** `critnib_find_le`: the greatest key not above `k`. */
  function FindLe(keys: set<nat>, k: nat): (r: Found)
    ensures r.At? ==> r.key in keys && r.key <= k && forall j | j in keys && j <= k :: j <= r.key
    ensures r.Nothing? ==> forall j | j in keys :: j > k
  {
    if k in keys then At(k) else if k == 0 then Nothing else FindLe(keys, k - 1)
  }

  /** An event of the queue; a touch carries the hotness the formula gives the type. */
  datatype Event =
    | Create(hash: nat, addr: nat, size: nat, hot: bool)
    | Destroy(addr: nat)
    | Realloc(addrOld: nat, addrNew: nat, size: nat, hot: bool)
    | Touch(addr: nat, f: real)
    | SetTouchCallback(addr: nat)

  /** What the events say: which blocks there are, and how hot each type is. */
  datatype State = State(blocks: map<nat, Block>, hot: map<nat, real>)

  function Heat(kinds: map<nat, Kind>): map<nat, real> {
    map h | h in kinds :: kinds[h].f
  }

  lemma HeatEnrolled(kinds: map<nat, Kind>, b: Block)
    ensures Heat(Enrolled(kinds, b, INITIAL_HOTNESS)) ==
      if b.hash in kinds then Heat(kinds) else Heat(kinds)[b.hash := INITIAL_HOTNESS]
  {
    var hot := if b.hash in kinds then Heat(kinds) else Heat(kinds)[b.hash := INITIAL_HOTNESS];
    assert Heat(Enrolled(kinds, b, INITIAL_HOTNESS)).Keys == hot.Keys;
  }

  /** Other numbers of a type leave its hotness alone. */
  lemma HeatKept(kinds: map<nat, Kind>, h: nat, t: Kind)
    requires h in kinds && t.f == kinds[h].f
    ensures Heat(kinds[h := t]) == Heat(kinds)
  {
  }

  /** A block more in the numbers of its type; a new type starts with hotness 40. */
  predicate Entered(kinds0: map<nat, Kind>, b: Block, kinds: map<nat, Kind>) {
    var t := if b.hash in kinds0 then kinds0[b.hash] else Kind(0, 0, 0, 40.0);
    kinds == kinds0[b.hash := Kind(t.num + 1, t.total + b.size, t.dram + if b.hot then b.size else 0, t.f)]
  }

  /** A block less in the numbers of its type, which has it. */
  predicate StruckOff(kinds0: map<nat, Kind>, b: Block, kinds: map<nat, Kind>) {
    b.hash in kinds0 && b.hash in kinds && Entered(kinds, b, kinds0) && kinds.Keys == kinds0.Keys
  }

  lemma EnrolledEnters(kinds: map<nat, Kind>, b: Block)
    ensures Entered(kinds, b, Enrolled(kinds, b, INITIAL_HOTNESS))
  {
  }

  function Created(s: State, hash: nat, addr: nat, size: nat, hot: bool): State {
    State(s.blocks[addr := Block(size, hash, hot)], if hash in s.hot then s.hot else s.hot[hash := INITIAL_HOTNESS])
  }

  /** A touch inside a block sets the hotness of the block's type. */
  function Touched(s: State, addr: nat, f: real): State {
    match FindLe(s.blocks.Keys, addr)
    case Nothing => s
    case At(a) => if addr < a + s.blocks[a].size then s.(hot := s.hot[s.blocks[a].hash := f]) else s
  }

  function After(s: State, e: Event): State {
    match e
    case Create(hash, addr, size, hot) => Created(s, hash, addr, size, hot)
    case Destroy(addr) => s.(blocks := s.blocks - {addr})
    case Realloc(addrOld, addrNew, size, hot) => Created(s.(blocks := s.blocks - {addrOld}), 0, addrNew, size, hot)
    case Touch(addr, f) => Touched(s, addr, f)
    case SetTouchCallback(_) => s
  }

  /** A block is created only where none is. */
  predicate Sound(s: State, e: Event) {
    match e
    case Create(_, addr, size, _) => addr !in s.blocks && size < WORD
    case Destroy(_) => true
    case Realloc(addrOld, addrNew, size, _) => addrNew !in s.blocks - {addrOld} && size < WORD
    case Touch(_, _) => true
    case SetTouchCallback(_) => true
  }

  predicate SoundRun(s: State, events: seq<Event>)
    decreases events
  {
    events == [] || (Sound(s, events[0]) && SoundRun(After(s, events[0]), events[1..]))
  }

  function AtEnd(s: State, events: seq<Event>): State
    decreases events
  {
    if events == [] then s else AtEnd(After(s, events[0]), events[1..])
  }

  // ---------- what a run of events leaves ----------

  /** The event puts a block at `a`. */
  predicate Makes(e: Event, a: nat) {
    (e.Create? && e.addr == a) || (e.Realloc? && e.addrNew == a)
  }

  /** The event takes the block at `a` away. */
  predicate Drops(e: Event, a: nat) {
    (e.Destroy? && e.addr == a) || (e.Realloc? && e.addrOld == a && e.addrNew != a)
  }

  /** No event from `i` up to `n` makes or drops a block at `a`. */
  ghost predicate Silent(events: seq<Event>, i: nat, n: nat, a: nat)
    requires n <= |events|
  {
    forall k {:trigger events[k]} | i <= k < n :: !Makes(events[k], a) && !Drops(events[k], a)
  }

  /** The block at `a` is as the event made it; a block made by `realloc` has type 0. */
  predicate Stands(e: Event, blocks: map<nat, Block>, a: nat)
    requires Makes(e, a)
  {
    a in blocks && blocks[a] == Block(e.size, if e.Create? then e.hash else 0, e.hot)
  }

  predicate SameAt(was: map<nat, Block>, blocks: map<nat, Block>, a: nat) {
    if a in was then a in blocks && blocks[a] == was[a] else a !in blocks
  }

  /**
    Of the first `n` events the last one about an address decides: after a creation the block is there as
    created, after a destruction it is not, and where there was neither it is as at the start.
   */
  ghost predicate LastDecides(start: map<nat, Block>, events: seq<Event>, n: nat, blocks: map<nat, Block>)
    requires n <= |events|
  {
    && (forall a, i | 0 <= i < n && Makes(events[i], a) && Silent(events, i + 1, n, a) :: Stands(events[i], blocks, a))
    && (forall a, i | 0 <= i < n && Drops(events[i], a) && Silent(events, i + 1, n, a) :: a !in blocks)
    && (forall a | Silent(events, 0, n, a) :: SameAt(start, blocks, a))
  }

  /** What one event does to the block at `a`. */
  ghost predicate OneDecides(was: map<nat, Block>, e: Event, blocks: map<nat, Block>, a: nat) {
    && (Makes(e, a) ==> Stands(e, blocks, a))
    && (Drops(e, a) ==> a !in blocks)
    && (!Makes(e, a) && !Drops(e, a) ==> SameAt(was, blocks, a))
  }

  lemma DecidesOn(start: map<nat, Block>, events: seq<Event>, n: nat, was: map<nat, Block>, blocks: map<nat, Block>)
    requires n < |events| && LastDecides(start, events, n, was) && forall a :: OneDecides(was, events[n], blocks, a)
    ensures LastDecides(start, events, n + 1, blocks)
  {
    forall a, i | 0 <= i < n + 1 && Makes(events[i], a) && Silent(events, i + 1, n + 1, a)
      ensures Stands(events[i], blocks, a)
    {
      assert OneDecides(was, events[n], blocks, a);
      if i < n { assert Silent(events, i + 1, n, a); }
    }
    forall a, i | 0 <= i < n + 1 && Drops(events[i], a) && Silent(events, i + 1, n + 1, a) ensures a !in blocks {
      assert OneDecides(was, events[n], blocks, a);
      if i < n { assert Silent(events, i + 1, n, a); }
    }
    forall a | Silent(events, 0, n + 1, a) ensures SameAt(start, blocks, a) {
      assert Silent(events, 0, n, a) && OneDecides(was, events[n], blocks, a);
    }
  }

  /** The block with the greatest address not above `addr` reaches over `addr`, and is of type `h`. */
  ghost predicate Hits(blocks: map<nat, Block>, addr: nat, h: nat) {
    exists a :: a in blocks && a <= addr < a + blocks[a].size && blocks[a].hash == h
      && forall b | b in blocks && b <= addr :: b <= a
  }

  /** A new type has hotness 40, a type whose block is touched the hotness of the touch, any other what it had. */
  ghost predicate HeatFollows(was: map<nat, Block>, kinds0: map<nat, Kind>, e: Event, kinds: map<nat, Kind>) {
    && (forall h | h in kinds0 :: h in kinds)
    && (forall h | h in kinds && h !in kinds0 :: kinds[h].f == 40.0)
    && (forall h | h in kinds0 && h in kinds && e.Touch? && Hits(was, e.addr, h) :: kinds[h].f == e.f)
    && (forall h | h in kinds0 && h in kinds && !(e.Touch? && Hits(was, e.addr, h)) :: kinds[h].f == kinds0[h].f)
  }

  lemma AfterDecides(s: State, e: Event, a: nat)
    ensures OneDecides(s.blocks, e, After(s, e).blocks, a)
  {
  }

  lemma AfterHeat(s: State, kinds0: map<nat, Kind>, e: Event, kinds: map<nat, Kind>)
    requires s.hot == Heat(kinds0) && After(s, e).hot == Heat(kinds) &&
      forall a | a in s.blocks :: s.blocks[a].hash in kinds0
    ensures HeatFollows(s.blocks, kinds0, e, kinds)
  {
    forall h ensures h in kinds <==> h in After(s, e).hot {}
    if e.Touch? {
      TouchHits(s, e.addr, e.f);
    }
  }

  lemma TouchHits(s: State, addr: nat, f: real)
    requires forall a | a in s.blocks :: s.blocks[a].hash in s.hot
    ensures Touched(s, addr, f).hot.Keys == s.hot.Keys
    ensures forall h | h in s.hot :: Touched(s, addr, f).hot[h] == if Hits(s.blocks, addr, h) then f else s.hot[h]
  {
  }

  class Tachanka {
    var blocks: map<nat, Block>
    var kinds: map<nat, Kind>
    const ranking: Ranking

    ghost predicate Valid()
      reads this, ranking, ranking.entries
    {
      && ranking.Valid() && Balanced(blocks, kinds) && Ranked(ranking.Shape(), blocks, kinds, ranking.quant)
      && forall a | a in blocks :: blocks[a].size < WORD
    }

    function Now(): State
      reads this
    {
      State(blocks, Heat(kinds))
    }

    /** `tachanka_init` */
    constructor (quantify: real -> real)
      ensures Valid() && blocks == map[] && kinds == map[] && fresh(ranking) && fresh(ranking.entries)
    {
      blocks := map[];
      kinds := map[];
      ranking := new Ranking(quantify);
    }

    /** `register_block`; where `addr` is in use already the block is not recorded. */
    method RegisterBlock(hash: nat, addr: nat, size: nat, hot: bool)
      modifies this`blocks, this`kinds
      ensures var b := Block(size, hash, hot);
        && blocks == (if addr in old(blocks) then old(blocks) else old(blocks)[addr := b])
        && kinds == Enrolled(old(kinds), b, INITIAL_HOTNESS)
    {
      if hash !in kinds {
        kinds := kinds[hash := Kind(0, 0, 0, 0.0)];
        kinds := kinds[hash := kinds[hash].(f := INITIAL_HOTNESS)];
      }
      var t := kinds[hash];
      kinds := kinds[hash := t.(num := t.num + 1)];
      kinds := kinds[hash := kinds[hash].(total := t.total + size)];
      if hot {
        kinds := kinds[hash := kinds[hash].(dram := t.dram + size)];
      }
      if addr !in blocks {
        blocks := blocks[addr := Block(size, hash, hot)];
      }
    }

    /** `register_block_in_ranking` */
    method RegisterBlockInRanking(addr: nat, size: nat)
      requires ranking.Valid() && forall a | a in blocks :: blocks[a].hash in kinds
      modifies ranking.entries
      ensures ranking.Valid()
      ensures addr in blocks ==>
        Added(old(ranking.Shape()), ranking.Shape(), ranking.quant(kinds[blocks[addr].hash].f), size)
    {
      var bl := FindLe(blocks.Keys, addr);
      if bl.At? {
        ranking.Add(kinds[blocks[bl.key].hash].f, size);
      }
    }

    /** A creation keeps the books if and only if the address is not in use. */
    method HandleCreate(hash: nat, addr: nat, size: nat, hot: bool)
      requires Valid() && size < WORD
      modifies this`blocks, this`kinds, ranking.entries
      ensures Valid() <==> addr !in old(blocks)
      ensures var b := Block(size, hash, hot);
        && blocks == (if addr in old(blocks) then old(blocks) else old(blocks)[addr := b])
        && kinds == Enrolled(old(kinds), b, INITIAL_HOTNESS)
      ensures Entered(old(kinds), Block(size, hash, hot), kinds)
      ensures addr !in old(blocks) ==> Now() == Created(old(Now()), hash, addr, size, hot)
    {
      ghost var b := Block(size, hash, hot);
      ghost var was, blocks0, kinds0 := ranking.Shape(), blocks, kinds;
      EnrolledBalanced(blocks, kinds, addr, b, INITIAL_HOTNESS);
      HeatEnrolled(kinds, b);
      EnrolledEnters(kinds, b);
      RegisterBlock(hash, addr, size, hot);
      RegisterBlockInRanking(addr, size);
      if addr !in blocks0 {
        RankedIn(was, ranking.Shape(), blocks0, kinds0, ranking.quant, addr, b, INITIAL_HOTNESS);
      }
    }

    /** The records' side of `unregister_block`. */
    method DropRecord(addr: nat) returns (bl: Block, t: Kind)
      requires Balanced(blocks, kinds) && addr in blocks
      modifies this`blocks, this`kinds
      ensures bl == old(blocks)[addr] && bl.hash in old(kinds) && t == old(kinds)[bl.hash]
      ensures t.num >= 1 && t.total >= bl.size && (bl.hot ==> t.dram >= bl.size)
      ensures blocks == old(blocks) - {addr} && kinds == old(kinds)[bl.hash := Shrunk(t, bl)] && Balanced(blocks, kinds)
      ensures Heat(kinds) == Heat(old(kinds)) && StruckOff(old(kinds), bl, kinds)
    {
      BlockOut(blocks, kinds, addr);
      bl := blocks[addr];
      blocks := blocks - {addr};
      t := kinds[bl.hash];
      kinds := kinds[bl.hash := t.(num := t.num - 1)];
      kinds := kinds[bl.hash := kinds[bl.hash].(total := t.total - bl.size)];
      if bl.hot {
        kinds := kinds[bl.hash := kinds[bl.hash].(dram := t.dram - bl.size)];
      }
      assert kinds == old(kinds)[bl.hash := Shrunk(t, bl)];
      HeatKept(old(kinds), bl.hash, Shrunk(t, bl));
    }

    /** `unregister_block` */
    method UnregisterBlock(addr: nat)
      requires Valid()
      modifies this`blocks, this`kinds, ranking.entries
      ensures Valid() && blocks == old(blocks) - {addr} && Heat(kinds) == Heat(old(kinds))
      ensures addr !in old(blocks) ==> kinds == old(kinds)
      ensures addr in old(blocks) ==> StruckOff(old(kinds), old(blocks)[addr], kinds)
    {
      if addr !in blocks {
        assert blocks == blocks - {addr};
        return;
      }
      ghost var was, blocks0, kinds0 := ranking.Shape(), blocks, kinds;
      HeldInRanking(was, blocks, kinds, ranking.quant, blocks[addr].hash);
      var bl, t := DropRecord(addr);
      ranking.Remove(t.f, bl.size);
      RankedOut(was, ranking.Shape(), blocks0, kinds0, ranking.quant, addr, bl, t);
    }

    /** The memory of a type leaves the ranking, all of it. */
    method TakeOut(hash: nat) returns (removed: nat)
      requires Valid() && hash in kinds
      modifies ranking.entries
      ensures ranking.Valid() && removed == kinds[hash].total
      ensures Added(ranking.Shape(), old(ranking.Shape()), ranking.quant(kinds[hash].f), removed)
    {
      HeldInRanking(ranking.Shape(), blocks, kinds, ranking.quant, hash);
      removed := ranking.RemoveRelaxed(kinds[hash].f, kinds[hash].total);
    }

    /** `ranking_touch_internal`: all memory of a type moves to its new hotness. */
    method MoveKind(hash: nat, f: real)
      requires Valid() && hash in kinds
      modifies this`kinds, ranking.entries
      ensures Valid() && kinds == old(kinds)[hash := old(kinds)[hash].(f := f)]
    {
      ghost var was, kinds0 := ranking.Shape(), kinds;
      var t := kinds[hash];
      Warmed(blocks, kinds, hash, f);
      var removed := TakeOut(hash);
      ghost var between := ranking.Shape();
      kinds := kinds[hash := t.(f := f)];
      ranking.Add(f, removed);
      RankedMoved(was, between, ranking.Shape(), blocks, kinds0, ranking.quant, hash, f);
    }

    /** `touch`: the type of the block around `addr`, if there is one, gets hotness `f`. */
    method HandleTouch(addr: nat, f: real)
      requires Valid()
      modifies this`kinds, ranking.entries
      ensures Valid()
      ensures Now() == Touched(old(Now()), addr, f)
      ensures HeatFollows(blocks, old(kinds), Touch(addr, f), kinds)
    {
      var bl := FindLe(blocks.Keys, addr);
      if bl.At? && addr < bl.key + blocks[bl.key].size {
        var hash := blocks[bl.key].hash;
        KindHolds(blocks, kinds, bl.key);
        if kinds[hash].total > 0 {
          MoveKind(hash, f);
        }
      }
      AfterHeat(old(Now()), old(kinds), Touch(addr, f), kinds);
    }

    /** `tachanka_set_touch_callback` leaves the books alone. */
    method HandleEvent(e: Event)
      requires Valid() && Sound(Now(), e)
      modifies this`blocks, this`kinds, ranking.entries
      ensures Valid() && Now() == After(old(Now()), e)
      ensures forall a :: OneDecides(old(blocks), e, blocks, a)
      ensures HeatFollows(old(blocks), old(kinds), e, kinds)
    {
      match e {
        case Create(hash, addr, size, hot) =>
          HandleCreate(hash, addr, size, hot);
        case Destroy(addr) =>
          UnregisterBlock(addr);
        case Realloc(addrOld, addrNew, size, hot) =>
          UnregisterBlock(addrOld);
          HandleCreate(0, addrNew, size, hot);
        case Touch(addr, f) =>
          HandleTouch(addr, f);
        case SetTouchCallback(addr) =>
      }
      forall a ensures OneDecides(old(blocks), e, blocks, a) { AfterDecides(old(Now()), e, a); }
      AfterHeat(old(Now()), old(kinds), e, kinds);
    }

    /** Draining the queue: the books balance after every run of events. */
    method Drain(events: seq<Event>)
      requires Valid() && SoundRun(Now(), events)
      modifies this`blocks, this`kinds, ranking.entries
      ensures Valid() && Now() == AtEnd(old(Now()), events)
      ensures LastDecides(old(blocks), events, |events|, blocks)
    {
      var i := 0;
      while i < |events|
        invariant 0 <= i <= |events| && Valid() && SoundRun(Now(), events[i..])
        invariant AtEnd(Now(), events[i..]) == AtEnd(old(Now()), events)
        invariant LastDecides(old(blocks), events, i, blocks)
      {
        assert events[i..][0] == events[i] && events[i..][1..] == events[i + 1..];
        ghost var was := blocks;
        HandleEvent(events[i]);
        DecidesOn(old(blocks), events, i, was, blocks);
        i := i + 1;
      }
    }
  }

  /** Two creations at one address, as when the destruction between them is lost: the records no longer add up. */
  method CreatedTwice(hash: nat, addr: nat, size: nat) returns (t: Tachanka)
    requires size < WORD
    ensures !t.Valid()
  {
    t := new Tachanka(f => f);
    t.HandleCreate(hash, addr, size, false);
    t.HandleCreate(hash, addr, size, false);
  }
}
