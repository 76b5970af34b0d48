/**
  The single-reader multiple-writer ring queue as a step machine: any number of threads inside
  `lq_push` and one inside `lq_pop`. Each atomic access, and each byte copied into or out of an
  entry, is one step; steps interleave freely and atomics are sequentially consistent. A weak
  compare-and-exchange may fail for no reason.

  `pushed` and `popped` are bookkeeping that no step depends on: what was pushed, in the order in which
  writers claimed the tail, and what was popped. So is a writer's ticket `t`, the number of its claim.
 */
module QueueMachine {

  type Item = seq<nat>

  datatype EntryState = Free | Ready
  datatype Entry = Entry(state: EntryState, data: Item)

  datatype Shared = Shared(
    size: nat, entrySize: nat,
    head: nat, tail: nat, used: int, unavailable: int,
    entries: seq<Entry>,
    pushed: seq<Item>, popped: seq<Item>)

  /** A thread in `lq_push`; `e` is the entry it claimed. */
  datatype Writer =
    | Reserve(item: Item)
    | Cancel(item: Item)
    | ReadTail(item: Item)
    | SwapTail(item: Item, seen: nat)
    | Check(item: Item, e: nat, t: nat)
    | Copy(item: Item, e: nat, t: nat, i: nat)
    | Post(item: Item, e: nat, t: nat)
    | Announce(item: Item, t: nat)
    | Done(ok: bool)
    | OutOfOrder

  /** The thread in `lq_pop`; `idx` is the entry it looks at. */
  datatype Reader =
    | AtRest
    | TakeOne
    | PutBack
    | ReadHead
    | SwapHead(seen: nat)
    | Look(idx: nat)
    | Fetch(idx: nat, buf: Item)
    | Release(idx: nat, buf: Item)
    | GiveBack(buf: Item)
    | RollBack(idx: nat)
    | RollBackCount
    | Returned(ok: bool, buf: Item)

  datatype Sys = Sys(s: Shared, ws: map<nat, Writer>, rd: Reader)

  function Next(i: nat, size: nat): nat
    requires size > 0
  {
    (i + 1) % size
  }

  function SetState(s: Shared, i: nat, st: EntryState): Shared
    requires i < |s.entries|
  {
    s.(entries := s.entries[i := s.entries[i].(state := st)])
  }

  function SetByte(s: Shared, e: nat, i: nat, b: nat): Shared
    requires e < |s.entries| && i < |s.entries[e].data|
  {
    s.(entries := s.entries[e := s.entries[e].(data := s.entries[e].data[i := b])])
  }

  /** One step of a writer. `spurious` is a weak exchange failing for no reason. */
  ghost predicate WriterNext(s: Shared, w: Writer, t: Shared, x: Writer) {
    match w
    case Reserve(item) =>
      t == s.(used := s.used + 1) && x == if s.used < s.size then ReadTail(item) else Cancel(item)
    case Cancel(item) =>
      t == s.(used := s.used - 1) && x == Done(false)
    case ReadTail(item) =>
      t == s && x == SwapTail(item, s.tail)
    case SwapTail(item, seen) =>
      || (t == s && x == ReadTail(item))
      || (s.tail == seen && s.size > 0 && t == s.(tail := Next(seen, s.size), pushed := s.pushed + [item])
          && x == Check(item, seen, |s.pushed|))
    case Check(item, e, n) =>
      e < |s.entries| && t == s && x == if s.entries[e].state == Free then Copy(item, e, n, 0) else OutOfOrder
    case Copy(item, e, n, i) =>
      if i < s.entrySize then
        && e < |s.entries| && i < |s.entries[e].data| && i < |item|
        && t == SetByte(s, e, i, item[i]) && x == Copy(item, e, n, i + 1)
      else t == s && x == Post(item, e, n)
    case Post(item, e, n) =>
      e < |s.entries| && t == SetState(s, e, Ready) && x == Announce(item, n)
    case Announce(item, n) =>
      t == s.(unavailable := s.unavailable - 1) && x == Done(true)
    case Done(_) => false
    case OutOfOrder => false
  }

  /** One step of the reader. */
  ghost predicate ReaderNext(s: Shared, r: Reader, t: Shared, x: Reader) {
    match r
    case AtRest => t == s && x == TakeOne
    case TakeOne =>
      t == s.(unavailable := s.unavailable + 1) && x == if s.unavailable < s.size then ReadHead else PutBack
    case PutBack =>
      t == s.(unavailable := s.unavailable - 1) && x == Returned(false, [])
    case ReadHead =>
      t == s && x == SwapHead(s.head)
    case SwapHead(seen) =>
      || (t == s && x == ReadHead)
      || (s.head == seen && s.size > 0 && t == s.(head := Next(seen, s.size)) && x == Look(seen))
    case Look(idx) =>
      idx < |s.entries| && t == s && x == if s.entries[idx].state == Ready then Fetch(idx, []) else RollBack(idx)
    case Fetch(idx, buf) =>
      idx < |s.entries| && t == s
      && if |buf| < s.entrySize then |buf| < |s.entries[idx].data| &&
        x == Fetch(idx, buf + [s.entries[idx].data[|buf|]])
         else x == Release(idx, buf)
    case Release(idx, buf) =>
      idx < |s.entries| && t == SetState(s, idx, Free) && x == GiveBack(buf)
    case GiveBack(buf) =>
      t == s.(used := s.used - 1, popped := s.popped + [buf]) && x == Returned(true, buf)
    case RollBack(idx) =>
      t == s.(head := idx) && x == RollBackCount
    case RollBackCount =>
      t == s.(unavailable := s.unavailable - 1) && x == Returned(false, [])
    case Returned(_, _) => t == s && x == AtRest
  }

  /** `lq_init`. */
  ghost predicate Init(y: Sys) {
    && y.ws == map[] && y.rd == AtRest
    && y.s.head == y.s.tail == 0 && y.s.used == 0 && y.s.unavailable == y.s.size
    && y.s.pushed == [] && y.s.popped == []
    && |y.s.entries| == y.s.size
    && forall i | 0 <= i < y.s.size :: y.s.entries[i].state == Free && |y.s.entries[i].data| == y.s.entrySize
  }

  /** Thread `i` calls `lq_push`, or makes its next step. */
  ghost predicate WriterStep(y: Sys, z: Sys, i: nat) {
    && z.rd == y.rd
    && if i in y.ws then
         i in z.ws && WriterNext(y.s, y.ws[i], z.s, z.ws[i]) && z.ws == y.ws[i := z.ws[i]]
       else
         i in z.ws && z.ws[i].Reserve? && |z.ws[i].item| == y.s.entrySize && z.s == y.s && z.ws == y.ws[i := z.ws[i]]
  }

  ghost predicate ReaderStep(y: Sys, z: Sys) {
    z.ws == y.ws && ReaderNext(y.s, y.rd, z.s, z.rd)
  }

  ghost predicate Step(y: Sys, z: Sys) {
    ReaderStep(y, z) || exists i :: WriterStep(y, z, i)
  }

  ghost predicate IsRun(run: seq<Sys>) {
    |run| > 0 && Init(run[0]) && forall i | 0 <= i < |run| - 1 :: Step(run[i], run[i + 1])
  }
}
