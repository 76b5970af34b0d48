/** What the stores of each operation do to the tree that memory holds. */
module AvlMoves {
  import opened Common
  import opened AvlTree
  import opened AvlHeap
  import opened AvlOrder

  /** After the links of a left rotation are stored, recomputing the two nodes finishes it. */
  lemma FinishLeft<D>(mem: Memory<D>, mem': Memory<D>, mem2: Memory<D>, mem3: Memory<D>, t: Tree<D>, par: nat,
      wh: Which)
    requires t.Bin? && t.r.Bin? && Apart(t) && Loose(mem, t.a, t, par, wh)
    requires LeftLinks(mem, mem', t.a, t.r.a, Root(t.r.l)) && SameOn(mem, mem', Addrs(t) - {t.a, t.r.a} - Top(t.r.l))
    requires mem2 == mem'[t.a := Refresh(mem', mem'[t.a])] && mem3 == mem2[t.r.a := Refresh(mem2, mem2[t.r.a])]
    ensures Sub(mem3, t.r.a, RotL(t), par, wh)
  {
    var x, z := t.a, t.r.a;
    LeftLinksLoose(mem, mem', t, par, wh);
    RotLApart(t);
    Refreshed(mem', x, RotL(t).l, z, LEFT);
    SubFrame(mem', mem2, mem'[z].right, t.r.r, z, RIGHT);
    assert Loose(mem2, z, RotL(t), par, wh);
    Refreshed(mem2, z, RotL(t), par, wh);
  }

  lemma FinishRight<D>(mem: Memory<D>, mem': Memory<D>, mem2: Memory<D>, mem3: Memory<D>, t: Tree<D>, par: nat,
      wh: Which)
    requires t.Bin? && t.l.Bin? && Apart(t) && Loose(mem, t.a, t, par, wh)
    requires RightLinks(mem, mem', t.a, t.l.a, Root(t.l.r)) && SameOn(mem, mem', Addrs(t) - {t.a, t.l.a} - Top(t.l.r))
    requires mem2 == mem'[t.a := Refresh(mem', mem'[t.a])] && mem3 == mem2[t.l.a := Refresh(mem2, mem2[t.l.a])]
    ensures Sub(mem3, t.l.a, RotR(t), par, wh)
  {
    var x, y := t.a, t.l.a;
    RightLinksLoose(mem, mem', t, par, wh);
    RotRApart(t);
    Refreshed(mem', x, RotR(t).r, y, RIGHT);
    SubFrame(mem', mem2, mem'[y].left, t.l.l, y, LEFT);
    assert Loose(mem2, y, RotR(t), par, wh);
    Refreshed(mem2, y, RotR(t), par, wh);
  }

  /** Memory outside the rotated subtree is as before but for the link in the hole. */
  ghost predicate HoleSet<D>(mem: Memory<D>, mem': Memory<D>, root: nat, root': nat, ctx: Ctx<D>, own: set<nat>,
      p: nat) {
    && (forall a | a in mem && a !in own && !(ctx.Inside? && a == ctx.f.a) :: a in mem' && mem'[a] == mem[a])
    && (if ctx.Here? then root' == p
        else root' == root && ctx.f.a in mem && ctx.f.a in mem' &&
             mem'[ctx.f.a] == SetHole(mem[ctx.f.a], ctx.f.side, p))
  }

  lemma HoleAround<D>(mem: Memory<D>, mem': Memory<D>, root: nat, root': nat, ctx: Ctx<D>, own: set<nat>, hole: nat,
      p: nat)
    requires Around(mem, root, ctx, hole) && ApartC(ctx) && own !! CAddrs(ctx) &&
      HoleSet(mem, mem', root, root', ctx, own, p)
    ensures Around(mem', root', ctx, p)
  {
    AroundSwap(mem, mem', root, root', ctx, hole, p);
  }

  /** The addresses a left rotation works on. */
  lemma LeftPieces<D>(mem: Memory<D>, root: nat, ctx: Ctx<D>, t: Tree<D>)
    requires LooseAt(mem, root, ctx, t) && t.Bin? && t.r.Bin?
    ensures t.a in mem && mem[t.a].right == t.r.a && t.r.a in mem && mem[t.r.a].left == Root(t.r.l)
    ensures t.a != t.r.a && t.a != 0 && t.r.a != 0 && Root(t.r.l) != t.a && Root(t.r.l) != t.r.a
    ensures Root(t.r.l) != 0 ==> Root(t.r.l) in mem && Root(t.r.l) in Addrs(t)
    ensures t.a in Addrs(t) && t.r.a in Addrs(t) && Top(t.r.l) <= Addrs(t)
    ensures mem[t.a].parent == ParentOf(ctx) && mem[t.a].which == WhichOf(ctx)
    ensures ctx.Inside? ==> ctx.f.a in mem && ctx.f.a !in Addrs(t) && ctx.f.a in CAddrs(ctx)
    ensures mem[t.a].left != 0 ==> mem[t.a].left in mem && mem[t.a].left !in {t.a, t.r.a}
    ensures mem[t.r.a].right != 0 ==> mem[t.r.a].right in mem && mem[t.r.a].right !in {t.a, t.r.a}
  {
    SubRoot(mem, mem[t.r.a].left, t.r.l, t.r.a, LEFT);
    SubRoot(mem, mem[t.r.a].right, t.r.r, t.r.a, RIGHT);
    SubRoot(mem, mem[t.a].left, t.l, t.a, LEFT);
  }

  lemma RightPieces<D>(mem: Memory<D>, root: nat, ctx: Ctx<D>, t: Tree<D>)
    requires LooseAt(mem, root, ctx, t) && t.Bin? && t.l.Bin?
    ensures t.a in mem && mem[t.a].left == t.l.a && t.l.a in mem && mem[t.l.a].right == Root(t.l.r)
    ensures t.a != t.l.a && t.a != 0 && t.l.a != 0 && Root(t.l.r) != t.a && Root(t.l.r) != t.l.a
    ensures Root(t.l.r) != 0 ==> Root(t.l.r) in mem && Root(t.l.r) in Addrs(t)
    ensures t.a in Addrs(t) && t.l.a in Addrs(t) && Top(t.l.r) <= Addrs(t)
    ensures mem[t.a].parent == ParentOf(ctx) && mem[t.a].which == WhichOf(ctx)
    ensures ctx.Inside? ==> ctx.f.a in mem && ctx.f.a !in Addrs(t) && ctx.f.a in CAddrs(ctx)
    ensures mem[t.a].right != 0 ==> mem[t.a].right in mem && mem[t.a].right !in {t.a, t.l.a}
    ensures mem[t.l.a].left != 0 ==> mem[t.l.a].left in mem && mem[t.l.a].left !in {t.a, t.l.a}
  {
    SubRoot(mem, mem[t.l.a].right, t.l.r, t.l.a, RIGHT);
    SubRoot(mem, mem[t.l.a].left, t.l.l, t.l.a, LEFT);
    SubRoot(mem, mem[t.a].right, t.r, t.a, RIGHT);
  }

  /**
    What the stores of a left rotation leave alone: everything but the nodes `x`, `z`, `b` and the link that
    held `x`.
   */
  ghost predicate LeftStored<D>(mem: Memory<D>, mem': Memory<D>, root: nat, root': nat, x: nat, z: nat, b: nat,
      par: nat, which: Which) {
    && LeftLinks(mem, mem', x, z, b) && mem'.Keys == mem.Keys
    && (forall a | a in mem && a !in {x, z} && !(b != 0 && a == b) && !(which != ROOT && a == par) :: mem'[a] == mem[a])
    && (if which == ROOT then root' == z else par in mem && root' == root && mem'[par] == SetHole(mem[par], which, z))
  }

  lemma LeftDone<D>(mem: Memory<D>, mem1: Memory<D>, mem2: Memory<D>, mem3: Memory<D>, root: nat, root': nat,
      ctx: Ctx<D>, t: Tree<D>)
    requires LooseAt(mem, root, ctx, t) && t.Bin? && t.r.Bin?
    requires LeftStored(mem, mem1, root, root', t.a, t.r.a, Root(t.r.l), ParentOf(ctx), WhichOf(ctx))
    requires mem2 == mem1[t.a := Refresh(mem1, mem1[t.a])] && mem3 == mem2[t.r.a := Refresh(mem2, mem2[t.r.a])]
    ensures At(mem3, root', ctx, RotL(t))
  {
    LeftPieces(mem, root, ctx, t);
    assert HoleSet(mem, mem3, root, root', ctx, Addrs(t), t.r.a);
    HoleAround(mem, mem3, root, root', ctx, Addrs(t), t.a, t.r.a);
    assert SameOn(mem, mem1, Addrs(t) - {t.a, t.r.a} - Top(t.r.l));
    FinishLeft(mem, mem1, mem2, mem3, t, ParentOf(ctx), WhichOf(ctx));
    RotLApart(t);
  }

  /**
    What the stores of a right rotation leave alone: everything but the nodes `x`, `y`, `b` and the link that
    held `x`.
   */
  ghost predicate RightStored<D>(mem: Memory<D>, mem': Memory<D>, root: nat, root': nat, x: nat, y: nat, b: nat,
      par: nat, which: Which) {
    && RightLinks(mem, mem', x, y, b) && mem'.Keys == mem.Keys
    && (forall a | a in mem && a !in {x, y} && !(b != 0 && a == b) && !(which != ROOT && a == par) :: mem'[a] == mem[a])
    && (if which == ROOT then root' == y else par in mem && root' == root && mem'[par] == SetHole(mem[par], which, y))
  }

  lemma RightDone<D>(mem: Memory<D>, mem1: Memory<D>, mem2: Memory<D>, mem3: Memory<D>, root: nat, root': nat,
      ctx: Ctx<D>, t: Tree<D>)
    requires LooseAt(mem, root, ctx, t) && t.Bin? && t.l.Bin?
    requires RightStored(mem, mem1, root, root', t.a, t.l.a, Root(t.l.r), ParentOf(ctx), WhichOf(ctx))
    requires mem2 == mem1[t.a := Refresh(mem1, mem1[t.a])] && mem3 == mem2[t.l.a := Refresh(mem2, mem2[t.l.a])]
    ensures At(mem3, root', ctx, RotR(t))
  {
    RightPieces(mem, root, ctx, t);
    assert HoleSet(mem, mem3, root, root', ctx, Addrs(t), t.l.a);
    HoleAround(mem, mem3, root, root', ctx, Addrs(t), t.a, t.l.a);
    assert SameOn(mem, mem1, Addrs(t) - {t.a, t.l.a} - Top(t.l.r));
    FinishRight(mem, mem1, mem2, mem3, t, ParentOf(ctx), WhichOf(ctx));
    RotRApart(t);
  }

  lemma AtLoose<D>(mem: Memory<D>, root: nat, ctx: Ctx<D>, t: Tree<D>)
    requires At(mem, root, ctx, t)
    ensures LooseAt(mem, root, ctx, t)
  {
  }

  /** The level of a subtree, as read from its top node. */
  function Depth<D>(mem: Memory<D>, p: nat): nat {
    if p != 0 && p in mem then mem[p].height + 1 else 0
  }

  lemma DepthIsLevel<D>(mem: Memory<D>, p: nat, t: Tree<D>, par: nat, wh: Which)
    requires Sub(mem, p, t, par, wh)
    ensures Depth(mem, p) == Lvl(t) && (p != 0 ==> p in mem)
  {
  }

  /** The levels of the children of the node at a place. */
  lemma ChildLevels<D>(mem: Memory<D>, root: nat, ctx: Ctx<D>, t: Tree<D>)
    requires LooseAt(mem, root, ctx, t) && t.Bin?
    ensures t.a in mem && Depth(mem, mem[t.a].left) == Lvl(t.l) && Depth(mem, mem[t.a].right) == Lvl(t.r)
    ensures (mem[t.a].left != 0 ==> mem[t.a].left in mem) && (mem[t.a].right != 0 ==> mem[t.a].right in mem)
    ensures mem[t.a].left == Root(t.l) && mem[t.a].right == Root(t.r)
  {
    DepthIsLevel(mem, mem[t.a].left, t.l, t.a, LEFT);
    DepthIsLevel(mem, mem[t.a].right, t.r, t.a, RIGHT);
    SubRoot(mem, mem[t.a].left, t.l, t.a, LEFT);
    SubRoot(mem, mem[t.a].right, t.r, t.a, RIGHT);
  }

  /** Recomputing the node at a place. */
  lemma RefreshAt<D>(mem: Memory<D>, root: nat, ctx: Ctx<D>, t: Tree<D>)
    requires LooseAt(mem, root, ctx, t) && t.Bin?
    ensures t.a in mem && At(mem[t.a := Refresh(mem, mem[t.a])], root, ctx, t)
  {
    var mem' := mem[t.a := Refresh(mem, mem[t.a])];
    Refreshed(mem, t.a, t, ParentOf(ctx), WhichOf(ctx));
    assert t.a in Addrs(t);
    AroundFrame(mem, mem', root, ctx, t.a);
  }

  // ---------- one turn of the upward loop ----------

  /** The loop of `balance_upwards` is at a subtree in order, the frames above it fit for repair. */
  ghost predicate Climbing<D>(mem: Memory<D>, root: nat, ctx: Ctx<D>, t: Tree<D>, was: nat) {
    At(mem, root, ctx, t) && t.Bin? && Good(t) && Sibs(ctx) && Ready(ctx, Lvl(t), was)
  }

  /** Turns still to come: a rotation adds one more at the same depth. */
  ghost function Turns<D>(ctx: Ctx<D>, t: Tree<D>): nat {
    if ctx.Here? then 0 else 2 * Len(ctx) - if Gap(Lvl(t), Lvl(ctx.f.sib)) <= 1 then 1 else 0
  }

  ghost predicate ChildFrame<D>(q: Tree<D>, f: Frame<D>, c: Tree<D>) {
    q.Bin? && ((f == LeftFrame(q) && c == q.l) || (f == RightFrame(q) && c == q.r))
  }

  lemma ChildFrameFits<D>(q: Tree<D>, f: Frame<D>, c: Tree<D>)
    requires Good(q) && ChildFrame(q, f, c)
    ensures Good(c) && Good(f.sib) && Plug1(f, c) == q && Gap(Lvl(c), Lvl(f.sib)) <= 1 &&
      Lvl(q) == 1 + Max(Lvl(c), Lvl(f.sib))
  {
  }

  /** After a rotation the loop looks at a child of the repaired node, and at that node once more. */
  lemma ClimbRotated<D>(mem: Memory<D>, root: nat, ctx: Ctx<D>, q: Tree<D>, f: Frame<D>, c: Tree<D>, was: nat)
    requires At(mem, root, ctx, q) && Good(q) && Sibs(ctx) && ChildFrame(q, f, c) && c.Bin? && Settled(ctx, was) &&
      Gap(was, Lvl(q)) <= 1
    ensures Climbing(mem, root, Inside(f, ctx), c, was) && Up(Inside(f, ctx), c) == Up(ctx, q) &&
      Turns(Inside(f, ctx), c) == 2 * Len(ctx) + 1
  {
    AtLoose(mem, root, ctx, q);
    if f == LeftFrame(q) && c == q.l { GoLeft(mem, root, ctx, q); } else { GoRight(mem, root, ctx, q); }
    ChildFrameFits(q, f, c);
    FixSame(q);
  }

  /** What the loop knows when it looks at a node: its levels, and that its repair succeeds. */
  lemma ClimbFits<D>(ctx: Ctx<D>, t: Tree<D>, was: nat)
    requires ctx.Inside? && Good(t) && Sibs(ctx) && Ready(ctx, Lvl(t), was) && ctx.f.side != ROOT
    ensures var p := Plug1(ctx.f, t);
      && Good(p.l) && Good(p.r) && Gap(Lvl(p.l), Lvl(p.r)) == Gap(Lvl(t), Lvl(ctx.f.sib)) <= 2
      && Good(Fix(p)) && Gap(was, Lvl(Fix(p))) <= 1 && Up(ctx, t) == Up(ctx.up, Fix(p))
  {
    FixGood(Plug1(ctx.f, t));
  }

  lemma {:induction false} AddrsSplit<D>(ctx: Ctx<D>, t: Tree<D>)
    ensures Addrs(Plug(ctx, t)) == CAddrs(ctx) + Addrs(t)
  {
    if ctx.Inside? { AddrsSplit(ctx.up, Plug1(ctx.f, t)); }
  }

  lemma RotAddrs<D>(t: Tree<D>)
    requires t.Bin?
    ensures t.r.Bin? ==> Addrs(RotL(t)) == Addrs(t)
    ensures t.l.Bin? ==> Addrs(RotR(t)) == Addrs(t)
  {
    if t.r.Bin? { assert Addrs(RotL(t)) == {t.r.a} + ({t.a} + Addrs(t.l) + Addrs(t.r.l)) + Addrs(t.r.r); }
    if t.l.Bin? { assert Addrs(RotR(t)) == {t.l.a} + Addrs(t.l.l) + ({t.a} + Addrs(t.l.r) + Addrs(t.r)); }
  }

  /** Repairing nodes neither loses nor gains one. */
  lemma FixAddrs<D>(t: Tree<D>)
    requires t.Bin?
    ensures Addrs(Fix(t)) == Addrs(t)
  {
    RotAddrs(t);
    if t.r.Bin? && t.r.l.Bin? {
      RotAddrs(t.r);
      RotAddrs(t.(r := RotR(t.r)));
    }
    if t.l.Bin? && t.l.r.Bin? {
      RotAddrs(t.l);
      RotAddrs(t.(l := RotL(t.l)));
    }
  }

  lemma {:induction false} UpAddrs<D>(ctx: Ctx<D>, t: Tree<D>)
    ensures Addrs(Up(ctx, t)) == CAddrs(ctx) + Addrs(t)
  {
    if ctx.Inside? {
      UpAddrs(ctx.up, Fix(Plug1(ctx.f, t)));
      FixAddrs(Plug1(ctx.f, t));
    }
  }

  // ---------- the search path ----------

  /** A place reached by comparing with `d`: everything before it is lower, nothing after it is. */
  ghost predicate PutPlace<D>(lower: (D, D) -> bool, ctx: Ctx<D>, t: Tree<D>, d: D) {
    Sorted(lower, Flat(t)) && AllLower(lower, Before(ctx), d) && NoneLower(lower, After(ctx), d)
  }

  /** A place reached by looking for `d`: everything before it is lower and everything after it higher. */
  ghost predicate FindPlace<D>(lower: (D, D) -> bool, ctx: Ctx<D>, t: Tree<D>, d: D) {
    Sorted(lower, Flat(t)) && AllLower(lower, Before(ctx), d) && AllHigher(lower, After(ctx), d)
  }

  /** A new node linked into an empty place. */
  lemma NewLeafAt<D>(mem: Memory<D>, mem': Memory<D>, root: nat, root': nat, ctx: Ctx<D>, a: nat, n: Node<D>)
    requires At(mem, root, ctx, Nil) && a != 0 && a !in CAddrs(ctx)
    requires n.left == n.right == 0 && n.height == 0 && n.subtreeWeight == n.ownWeight && n.parent == ParentOf(ctx) &&
      n.which == WhichOf(ctx)
    requires a in mem' && mem'[a] == n && HoleSet(mem, mem', root, root', ctx, {a}, a)
    ensures At(mem', root', ctx, Bin(a, n.ownWeight, n.data, Nil, Nil))
  {
    HoleAround(mem, mem', root, root', ctx, {a}, 0, a);
  }

  /** `wre_put` as an operation on values: balance. */
  lemma PutBalanced<D>(tree: Tree<D>, ctx: Ctx<D>, t: Tree<D>)
    requires Good(tree) && Plug(ctx, Nil) == tree && t.Bin? && t.l.Nil? && t.r.Nil?
    ensures Good(t) && Sibs(ctx) && Ready(ctx, Lvl(t), FrameLvl(ctx, 0)) && Good(Up(ctx, t))
    ensures CAddrs(ctx) == Addrs(tree)
  {
    AddrsSplit(ctx, Nil);
    GoodSettled(ctx, Nil);
    SettledReady(ctx, 0, 1);
    UpGood(ctx, t, FrameLvl(ctx, 0));
  }

  /** `wre_put` as an operation on values: order. */
  lemma PutOrdered<D(!new)>(lower: (D, D) -> bool, tree: Tree<D>, ctx: Ctx<D>, t: Tree<D>)
    requires StrictWeak(lower) && Sorted(lower, Flat(tree)) && Plug(ctx, Nil) == tree
    requires t.Bin? && t.l.Nil? && t.r.Nil? && PutPlace(lower, ctx, Nil, t.d)
    ensures Sorted(lower, Flat(Up(ctx, t))) && Inserted(lower, Flat(tree), Flat(Up(ctx, t)), t.d, t.w)
  {
    UpFlat(ctx, t);
    PlugFlat(ctx, Nil);
    assert Flat(t) == [(t.d, t.w)];
    assert Flat(tree) == Before(ctx) + After(ctx);
    InsertSorted(lower, Before(ctx), After(ctx), t.d, t.w);
  }

  /** Some address is always free. */
  lemma FreeAddress(s: set<nat>)
    ensures exists a: nat :: a != 0 && a !in s
  {
    var a := Above(s);
    assert a != 0 && a !in s;
  }

  lemma {:induction false} Above(s: set<nat>) returns (a: nat)
    ensures a > 0 && forall x | x in s :: x < a
  {
    if s == {} {
      a := 1;
    } else {
      var x :| x in s;
      var b := Above(s - {x});
      a := if x < b then b else x + 1;
      assert forall y | y in s :: y == x || y in s - {x};
    }
  }

  lemma {:induction false} InMemory<D>(mem: Memory<D>, p: nat, t: Tree<D>, par: nat, wh: Which)
    requires Sub(mem, p, t, par, wh)
    ensures Addrs(t) <= mem.Keys
    decreases t
  {
    if t.Bin? {
      InMemory(mem, mem[p].left, t.l, p, LEFT);
      InMemory(mem, mem[p].right, t.r, p, RIGHT);
    }
  }

  // ---------- taking a node out ----------

  /** A node moved into the place of `c`: it has `c`'s links, `c`'s children and the slot that held `c` point to it. */
  ghost predicate Moved<D>(mem: Memory<D>, mem': Memory<D>, root: nat, root': nat, rep: nat, c: nat) {
    && rep in mem && c in mem && mem'.Keys == mem.Keys
    && var n := mem[c];
       && mem'[rep] == mem[rep].(parent := n.parent, which := n.which, left := n.left, right := n.right)
       && (n.left != 0 ==> n.left in mem && mem'[n.left] == mem[n.left].(parent := rep))
       && (n.right != 0 ==> n.right in mem && mem'[n.right] == mem[n.right].(parent := rep))
       && (if n.which == ROOT then root' == rep
         else n.parent in mem && root' == root && mem'[n.parent] == SetHole(mem[n.parent], n.which, rep))
       && forall a | a in mem && a != rep && !(n.left != 0 && a == n.left) && !(n.right != 0 && a == n.right) &&
         !(n.which != ROOT && a == n.parent) :: mem'[a] == mem[a]
  }

  /** The empty hole where a leaf was. */
  lemma HoleAt<D>(mem: Memory<D>, mem': Memory<D>, root: nat, root': nat, ctx: Ctx<D>, t: Tree<D>)
    requires At(mem, root, ctx, t) && HoleSet(mem, mem', root, root', ctx, Addrs(t), 0)
    ensures At(mem', root', ctx, Nil)
  {
    HoleAround(mem, mem', root, root', ctx, Addrs(t), Root(t), 0);
  }

  /** The child links of the node around a hole. */
  lemma HoleLinks<D>(mem: Memory<D>, root: nat, ctx: Ctx<D>, t: Tree<D>)
    requires At(mem, root, ctx, t) && ctx.Inside?
    ensures ctx.f.a in mem && ctx.f.a != 0 && ctx.f.a !in Addrs(t) && ctx.f.side != ROOT
    ensures ctx.f.side == LEFT ==> mem[ctx.f.a].left == Root(t) && mem[ctx.f.a].right == Root(ctx.f.sib)
    ensures ctx.f.side == RIGHT ==> mem[ctx.f.a].right == Root(t) && mem[ctx.f.a].left == Root(ctx.f.sib)
    ensures Root(ctx.f.sib) == 0 <==> ctx.f.sib.Nil?
    ensures ctx.f.sib.Bin? ==> ctx.f.sib.a in mem && ctx.f.sib.a != ctx.f.a && ctx.f.sib.a !in Addrs(t)
  {
    if ctx.f.side == LEFT {
      SubRoot(mem, mem[ctx.f.a].right, ctx.f.sib, ctx.f.a, RIGHT);
    } else {
      SubRoot(mem, mem[ctx.f.a].left, ctx.f.sib, ctx.f.a, LEFT);
    }
  }

  /** A hole seen from the sibling. */
  lemma HoleSibling<D>(mem: Memory<D>, root: nat, ctx: Ctx<D>)
    requires At(mem, root, ctx, Nil) && ctx.Inside?
    ensures At(mem, root, Inside(OtherFrame(ctx.f), ctx.up), ctx.f.sib)
  {
    GoUp(mem, root, ctx, Nil);
    var p := Plug1(ctx.f, Nil);
    if ctx.f.side == LEFT { GoRight(mem, root, ctx.up, p); } else { GoLeft(mem, root, ctx.up, p); }
  }

  /** Where balancing starts when a subtree lost a level: at it, at its sibling if it is gone, or at its parent. */
  function StartNode<D>(place: Ctx<D>, x: Tree<D>): nat
    requires place.Inside?
  {
    if x.Bin? then x.a else if place.f.sib.Bin? then place.f.sib.a else place.f.a
  }

  lemma StartsAt<D>(mem: Memory<D>, root: nat, place: Ctx<D>, x: Tree<D>) returns (c: Ctx<D>, t: Tree<D>, was: nat)
    requires At(mem, root, place, x) && place.Inside? && Good(x) && Sibs(place) && Settled(place, 1 + Lvl(x))
    ensures LooseAt(mem, root, c, t) && t.Bin? && t.a == StartNode(place, x) && Good(t) && Sibs(c) &&
      Ready(c, Lvl(t), was)
    ensures Up(c, t) == Up(place, x)
  {
    if x.Bin? {
      c, t, was := place, x, FrameLvl(place, 1 + Lvl(x));
      SettledReady(place, 1 + Lvl(x), Lvl(x));
      AtLoose(mem, root, place, x);
    } else {
      HoleReady(place);
      HoleSibling(mem, root, place);
      GoUp(mem, root, place, Nil);
      c, t, was := place.up, Plug1(place.f, Nil), FrameLvl(place.up, 2);
      if place.f.sib.Bin? {
        c, t, was := Inside(OtherFrame(place.f), place.up), place.f.sib, FrameLvl(place, 1);
        AtLoose(mem, root, c, t);
      }
    }
  }

  // ---------- a node with one child ----------

  /** The only child of a balanced node is a leaf, and takes its place. */
  lemma OnlyChildMoved<D>(mem: Memory<D>, mem1: Memory<D>, mem2: Memory<D>, root: nat, root': nat, ctx: Ctx<D>,
      t: Tree<D>, r: Tree<D>)
    requires At(mem, root, ctx, t) && t.Bin? && r.Bin? && r.l.Nil? && r.r.Nil? &&
      ((t.l.Nil? && t.r == r) || (t.r.Nil? && t.l == r))
    requires mem1 == mem[t.a := mem[t.a].(left := 0, right := 0)] && Moved(mem1, mem2, root, root', r.a, t.a)
    ensures LooseAt(mem2, root', ctx, r)
  {
    assert r.a in Addrs(t) && t.a in Addrs(t) && t.a !in Addrs(r);
    assert ctx.Inside? ==> ctx.f.a in CAddrs(ctx);
    assert HoleSet(mem, mem2, root, root', ctx, Addrs(t), r.a);
    HoleAround(mem, mem2, root, root', ctx, Addrs(t), t.a, r.a);
    assert Disjoint(ctx, r);
    SubRoot(mem, mem[t.a].left, t.l, t.a, LEFT);
    SubRoot(mem, mem[t.a].right, t.r, t.a, RIGHT);
    assert Sub(mem, r.a, r, t.a, if t.l.Nil? then RIGHT else LEFT);
    assert Loose(mem2, r.a, r, ParentOf(ctx), WhichOf(ctx));
  }

  /** The only child of a balanced node has no children. */
  lemma OnlyChildLeaf<D>(ctx: Ctx<D>, t: Tree<D>, r: Tree<D>)
    requires t.Bin? && r.Bin? && ((t.l.Nil? && t.r == r) || (t.r.Nil? && t.l == r)) && Good(t) && Settled(ctx, Lvl(t))
    ensures r.l.Nil? && r.r.Nil? && Good(r) && Ready(ctx, Lvl(r), FrameLvl(ctx, 2))
  {
    assert Lvl(t) == 2 && Lvl(r) == 1;
    SettledReady(ctx, 2, 1);
  }

  /** What the move of an only child touches. */
  lemma OnlyChildPieces<D>(mem: Memory<D>, root: nat, ctx: Ctx<D>, t: Tree<D>, r: Tree<D>)
    requires At(mem, root, ctx, t) && t.Bin? && r.Bin? && ((t.l.Nil? && t.r == r) || (t.r.Nil? && t.l == r))
    ensures t.a in mem && r.a in mem && r.a != t.a && r.a != 0
    ensures if t.l.Nil? then mem[t.a].left == 0 && mem[t.a].right == r.a
      else mem[t.a].left == r.a && mem[t.a].right == 0
    ensures mem[t.a].which != ROOT ==> mem[t.a].parent in mem && mem[t.a].parent != r.a && mem[t.a].parent != t.a
  {
    SubRoot(mem, mem[t.a].left, t.l, t.a, LEFT);
    SubRoot(mem, mem[t.a].right, t.r, t.a, RIGHT);
    assert ctx.Inside? ==> ctx.f.a in CAddrs(ctx) && t.a in Addrs(t) && r.a in Addrs(t);
  }

  // ---------- a node with two children ----------

  /** What detaching the replacer touches. */
  lemma ReplacerPieces<D>(mem: Memory<D>, root: nat, place: Ctx<D>, u: Tree<D>)
    requires At(mem, root, place, u) && place.Inside? && u.Bin? && u.l.Nil?
    ensures u.a in mem && mem[u.a].parent == place.f.a && mem[u.a].which == place.f.side && mem[u.a].right == Root(u.r)
    ensures u.a != 0 && (u.r.Bin? ==> u.r.a in mem && u.r.a != u.a && u.r.a != 0)
    ensures u.a !in CAddrs(place) && u.a !in Addrs(u.r) && (u.r.Bin? ==> u.r.a !in CAddrs(place))
  {
    SubRoot(mem, mem[u.a].right, u.r, u.a, RIGHT);
    assert u.a in Addrs(u) && (u.r.Bin? ==> u.r.a in Addrs(u));
  }

  /** The innermost frame of a path to the left below the right side of a spine node. */
  lemma PathFrame<D>(path: Ctx<D>, f: Frame<D>, ctx: Ctx<D>)
    requires AllLeft(path)
    ensures var place := Join(path, Inside(f, ctx)); place.Inside? && place.f == if path.Here? then f else path.f
    ensures path.Inside? ==> path.f.side == LEFT
  {
  }

  /** The replacer `u` detached: its right subtree takes its place. */
  lemma DetachedAt<D>(mem: Memory<D>, mem': Memory<D>, root: nat, ctx: Ctx<D>, u: Tree<D>)
    requires At(mem, root, ctx, u) && ctx.Inside? && u.Bin? && u.l.Nil?
    requires mem'.Keys == mem.Keys && ctx.f.a in mem && mem'[ctx.f.a] == SetHole(mem[ctx.f.a], ctx.f.side, Root(u.r))
    requires u.r.Bin? ==> u.r.a in mem && mem'[u.r.a] == mem[u.r.a].(parent := ctx.f.a, which := ctx.f.side)
    requires forall a | a in mem && a != ctx.f.a && !(u.r.Bin? && a == u.r.a) :: mem'[a] == mem[a]
    ensures At(mem', root, ctx, u.r)
  {
    assert ctx.f.a in CAddrs(ctx) && (u.r.Bin? ==> u.r.a in Addrs(u));
    HoleAround(mem, mem', root, root, ctx, Addrs(u), u.a, Root(u.r));
    SubAdopt(mem, mem', mem[u.a].right, u.r, u.a, RIGHT, ctx.f.a, ctx.f.side);
    SubRoot(mem, mem[u.a].right, u.r, u.a, RIGHT);
  }

  lemma {:induction false} EntryBelow<D>(path: Ctx<D>, hole: nat)
    ensures path.Here? ==> Entry(path, hole) == hole
    ensures path.Inside? ==> Entry(path, hole) in CAddrs(path)
  {
    if path.Inside? { EntryIn(path, hole); }
  }

  /** The addresses around the node `c` that is to be replaced by `u`, once `u` is detached. */
  lemma SpinePieces<D>(mem: Memory<D>, root: nat, path: Ctx<D>, f: Frame<D>, ctx: Ctx<D>, x: Tree<D>)
    requires At(mem, root, Join(path, Inside(f, ctx)), x) && f.side == RIGHT
    ensures Around(mem, root, Inside(f, ctx), Entry(path, Root(x)))
    ensures f.a in mem && f.a != 0 && mem[f.a].left == Root(f.sib) && mem[f.a].right == Entry(path, Root(x))
    ensures mem[f.a].parent == ParentOf(ctx) && mem[f.a].which == WhichOf(ctx)
    ensures f.sib.Bin? ==> f.sib.a in mem && f.sib.a != 0 && f.sib.a != f.a && f.sib.a != Entry(path, Root(x))
    ensures Root(f.sib) == 0 <==> f.sib.Nil?
    ensures ctx.Inside? ==>
      ctx.f.a in mem && ctx.f.a != f.a && ctx.f.a !in Addrs(f.sib) && ctx.f.a !in CAddrs(path) &&
      ctx.f.a !in Addrs(x) && ctx.f.side != ROOT
    ensures path.Inside? ==>
      Entry(path, Root(x)) in CAddrs(path) && Entry(path, Root(x)) in mem && Entry(path, Root(x)) != 0
    ensures f.a !in CAddrs(path) && f.a !in Addrs(x) && Addrs(f.sib) !! CAddrs(path) && Addrs(f.sib) !! Addrs(x)
    ensures CAddrs(ctx) !! CAddrs(path) && CAddrs(ctx) !! Addrs(x) && CAddrs(path) !! Addrs(x) &&
      CAddrs(ctx) !! Addrs(f.sib) && f.a !in CAddrs(ctx)
  {
    JoinApart(path, Inside(f, ctx));
    AroundSpine(mem, root, path, Inside(f, ctx), Root(x));
    EntryBelow(path, Root(x));
    SubRoot(mem, mem[f.a].left, f.sib, f.a, LEFT);
    if path.Inside? { EntryReal(mem, root, path, Inside(f, ctx), Root(x)); }
  }

  lemma {:induction false} EntryReal<D>(mem: Memory<D>, root: nat, path: Ctx<D>, ctx: Ctx<D>, hole: nat)
    requires Around(mem, root, Join(path, ctx), hole) && path.Inside?
    ensures Entry(path, hole) in mem && Entry(path, hole) != 0
  {
    if path.up.Inside? { EntryReal(mem, root, path.up, ctx, path.f.a); }
  }

  /** The detached node `u` moved into the place of a spine node. */
  lemma MovedReplaced<D>(mem: Memory<D>, mem': Memory<D>, root: nat, root': nat, path: Ctx<D>, f: Frame<D>,
      ctx: Ctx<D>, x: Tree<D>, u: nat)
    requires At(mem, root, Join(path, Inside(f, ctx)), x) && f.side == RIGHT && Moved(mem, mem', root, root', u, f.a)
    requires u !in CAddrs(Join(path, Inside(f, ctx)))
    ensures Replaced(mem, mem', root, root', path, f, ctx, u, Root(x))
  {
    JoinApart(path, Inside(f, ctx));
    SpinePieces(mem, root, path, f, ctx, x);
    var top := Entry(path, Root(x));
    assert f.sib.Bin? ==> f.sib.a in Addrs(f.sib);
    assert path.Here? ==> top == Root(x);
    assert x.Bin? ==> x.a in Addrs(x);
    assert ctx.Inside? ==> ctx.f.a in CAddrs(ctx);
    assert SameOn(mem, mem', CAddrs(path) - (if path.Inside? then {top} else {}));
    assert f.sib.Bin? ==> SameOn(mem, mem', Addrs(f.sib.l) + Addrs(f.sib.r)) by {
      assert f.sib.Bin? ==> f.sib.a !in Addrs(f.sib.l) + Addrs(f.sib.r);
    }
    assert ctx.Inside? ==> SameOn(mem, mem', CAddrs(ctx) - {ctx.f.a});
  }

  lemma MovedBelow<D>(mem: Memory<D>, mem': Memory<D>, root: nat, root': nat, path: Ctx<D>, f: Frame<D>, ctx: Ctx<D>,
      x: Tree<D>, u: nat)
    requires At(mem, root, Join(path, Inside(f, ctx)), x) && f.side == RIGHT && Moved(mem, mem', root, root', u, f.a)
    requires u !in Addrs(x)
    ensures var c := Join(path, Inside(SpineFrame(mem, f, u), ctx)); Sub(mem', Root(x), x, ParentOf(c), WhichOf(c))
  {
    JoinApart(path, Inside(f, ctx));
    SpinePieces(mem, root, path, f, ctx, x);
    assert x.Bin? ==> x.a in Addrs(x);
    assert f.sib.Bin? ==> f.sib.a in Addrs(f.sib);
    if path.Here? {
      SubAdopt(mem, mem', Root(x), x, f.a, RIGHT, u, RIGHT);
    } else {
      SubFrame(mem, mem', Root(x), x, path.f.a, path.f.side);
    }
  }

  /** The tree with `u` in the place of the node that is taken out. */
  lemma MovedAt<D>(mem: Memory<D>, mem': Memory<D>, root: nat, root': nat, path: Ctx<D>, f: Frame<D>, ctx: Ctx<D>,
      x: Tree<D>, u: nat)
    requires At(mem, root, Join(path, Inside(f, ctx)), x) && f.side == RIGHT && Moved(mem, mem', root, root', u, f.a)
    requires u !in CAddrs(Join(path, Inside(f, ctx))) && u !in Addrs(x) && u != 0
    ensures At(mem', root', Join(path, Inside(SpineFrame(mem, f, u), ctx)), x)
  {
    MovedReplaced(mem, mem', root, root', path, f, ctx, x, u);
    SpineReplaced(mem, mem', root, root', path, f, ctx, u, Root(x));
    MovedBelow(mem, mem', root, root', path, f, ctx, x, u);
    JoinApart(path, Inside(f, ctx));
    JoinApart(path, Inside(SpineFrame(mem, f, u), ctx));
  }

  /** The elements around a place below the right side of a spine node. */
  lemma SpineFlat<D>(path: Ctx<D>, f: Frame<D>, ctx: Ctx<D>)
    requires AllLeft(path) && f.side == RIGHT
    ensures Before(Join(path, Inside(f, ctx))) == Before(ctx) + (Flat(f.sib) + [(f.d, f.w)])
    ensures After(Join(path, Inside(f, ctx))) == After(path) + After(ctx)
  {
    JoinBefore(path, Inside(f, ctx));
    JoinAfter(path, Inside(f, ctx));
    assert After(Inside(f, ctx)) == After(ctx);
  }

  /** Taking out a node with two children, on values: the elements. */
  lemma TwoFlat<D>(path: Ctx<D>, ctx: Ctx<D>, t: Tree<D>, u: Tree<D>, g: Frame<D>)
    requires t.Bin? && u.Bin? && u.l.Nil? && AllLeft(path) && g == Frame(u.a, u.w, u.d, RIGHT, t.l)
    requires Plug(Join(path, Inside(RightFrame(t), ctx)), u) == Plug(ctx, t)
    ensures Flat(Up(Join(path, Inside(g, ctx)), u.r)) == (Before(ctx) + Flat(t.l)) + (Flat(t.r) + After(ctx))
  {
    var was, now := Join(path, Inside(RightFrame(t), ctx)), Join(path, Inside(g, ctx));
    SpineFlat(path, RightFrame(t), ctx);
    SpineFlat(path, g, ctx);
    PlugFlat(was, u);
    PlugFlat(ctx, t);
    UpFlat(now, u.r);
    LeftmostFlat(u);
    TwoFlatParts(Before(ctx), Flat(t.l), [(t.d, t.w)], Flat(t.r), After(ctx), [(u.d, u.w)], Flat(u.r), After(path));
  }

  lemma LeftmostFlat<D>(u: Tree<D>)
    requires u.Bin? && u.l.Nil?
    ensures Flat(u) == [(u.d, u.w)] + Flat(u.r)
  {
  }

  lemma TwoFlatParts<E>(b: seq<E>, l: seq<E>, e: seq<E>, r: seq<E>, a: seq<E>, u: seq<E>, ur: seq<E>, p: seq<E>)
    requires (b + (l + e)) + (u + ur) + (p + a) == b + (l + e + r) + a
    ensures (b + (l + u)) + ur + (p + a) == (b + l) + (r + a)
  {
    var k := |b| + |l| + |e|;
    var s := (b + (l + e)) + (u + ur) + (p + a);
    assert s[k..] == (u + ur) + (p + a);
    assert (b + (l + e + r) + a)[k..] == r + a;
    assert (b + (l + u)) + ur + (p + a) == (b + l) + ((u + ur) + (p + a));
  }

  /** Taking out a node with two children, on values: balance. */
  lemma TwoSettled<D>(path: Ctx<D>, ctx: Ctx<D>, t: Tree<D>, u: Tree<D>, g: Frame<D>)
    requires t.Bin? && u.Bin? && u.l.Nil? && g == Frame(u.a, u.w, u.d, RIGHT, t.l)
    requires Good(Plug(Join(path, Inside(RightFrame(t), ctx)), u))
    ensures var c := Join(path, Inside(g, ctx));
      && Sibs(c) && Settled(c, 1 + Lvl(u.r)) && Good(u.r) && Ready(c, Lvl(u.r), FrameLvl(c, 1 + Lvl(u.r)))
      && Good(Up(c, u.r))
  {
    var c := Join(path, Inside(g, ctx));
    GoodSettled(Join(path, Inside(RightFrame(t), ctx)), u);
    JoinSwap(path, RightFrame(t), g, ctx, Lvl(u));
    SettledReady(c, Lvl(u), Lvl(u.r));
    UpGood(c, u.r, FrameLvl(c, Lvl(u)));
  }

  // ---------- the result of a removal ----------

  /** Taking out a node with at most one child, on values. */
  lemma OuterGone<D>(ctx: Ctx<D>, t: Tree<D>, r: Tree<D>)
    requires Good(Plug(ctx, t)) && t.Bin? && ((t.l.Nil? && t.r == r) || (t.r.Nil? && t.l == r))
    ensures Good(Up(ctx, r)) && Flat(Up(ctx, r)) == (Before(ctx) + Flat(t.l)) + (Flat(t.r) + After(ctx))
  {
    GoodSettled(ctx, t);
    SettledReady(ctx, Lvl(t), Lvl(r));
    UpGood(ctx, r, FrameLvl(ctx, Lvl(t)));
    UpFlat(ctx, r);
    OuterFlatParts(Before(ctx), Flat(t.l), [(t.d, t.w)], Flat(t.r), After(ctx));
  }

  /** The node taken out is the only one that is no longer in the tree. */
  lemma OuterAddrs<D>(ctx: Ctx<D>, t: Tree<D>, r: Tree<D>)
    requires Disjoint(ctx, t) && t.Bin? && ((t.l.Nil? && t.r == r) || (t.r.Nil? && t.l == r))
    ensures Addrs(Up(ctx, r)) == Addrs(Plug(ctx, t)) - {t.a}
  {
    UpAddrs(ctx, r);
    AddrsSplit(ctx, t);
    assert Addrs(t) == {t.a} + Addrs(r) && t.a !in Addrs(r) && t.a in Addrs(t);
  }

  lemma TwoAddrs<D>(path: Ctx<D>, ctx: Ctx<D>, t: Tree<D>, u: Tree<D>, g: Frame<D>)
    requires t.Bin? && u.Bin? && u.l.Nil? && g == Frame(u.a, u.w, u.d, RIGHT, t.l)
    requires Disjoint(Join(path, Inside(RightFrame(t), ctx)), u)
    ensures Addrs(Up(Join(path, Inside(g, ctx)), u.r)) == Addrs(Plug(Join(path, Inside(RightFrame(t), ctx)), u)) - {t.a}
  {
    UpAddrs(Join(path, Inside(g, ctx)), u.r);
    AddrsSplit(Join(path, Inside(RightFrame(t), ctx)), u);
    JoinApart(path, Inside(g, ctx));
    JoinApart(path, Inside(RightFrame(t), ctx));
    assert Addrs(u) == {u.a} + Addrs(u.r);
    assert t.a in CAddrs(Inside(RightFrame(t), ctx));
  }

  /** A node with two children taken out, on values. */
  lemma InnerGone<D>(path: Ctx<D>, ctx: Ctx<D>, t: Tree<D>, u: Tree<D>, g: Frame<D>)
    requires t.Bin? && u.Bin? && u.l.Nil? && AllLeft(path) && g == Frame(u.a, u.w, u.d, RIGHT, t.l)
    requires Good(Plug(ctx, t)) && Plug(Join(path, Inside(RightFrame(t), ctx)), u) == Plug(ctx, t)
    requires Disjoint(Join(path, Inside(RightFrame(t), ctx)), u)
    ensures var c := Join(path, Inside(g, ctx));
      && Sibs(c) && Settled(c, 1 + Lvl(u.r)) && Good(u.r) && Good(Up(c, u.r))
      && Flat(Up(c, u.r)) == (Before(ctx) + Flat(t.l)) + (Flat(t.r) + After(ctx)) &&
        Addrs(Up(c, u.r)) == Addrs(Plug(ctx, t)) - {t.a}
  {
    TwoFlat(path, ctx, t, u, g);
    TwoSettled(path, ctx, t, u, g);
    TwoAddrs(path, ctx, t, u, g);
  }

  /** Freeing the node taken out leaves the tree as it is. */
  lemma NodeFreed<D>(mem: Memory<D>, root: nat, ctx: Ctx<D>, t: Tree<D>, after: Tree<D>)
    requires At(mem, root, Here, after) && t.Bin? && Addrs(after) == Addrs(Plug(ctx, t)) - {t.a}
    ensures At(mem - {t.a}, root, Here, after) && t.a in Addrs(Plug(ctx, t))
  {
    AddrsSplit(ctx, t);
    SubFrame(mem, mem - {t.a}, root, after, 0, ROOT);
  }

  /** The elements around the node at a place. */
  lemma WholeFlat<D>(ctx: Ctx<D>, t: Tree<D>)
    requires t.Bin?
    ensures Flat(Plug(ctx, t)) == (Before(ctx) + Flat(t.l)) + [(t.d, t.w)] + (Flat(t.r) + After(ctx))
  {
    PlugFlat(ctx, t);
    OuterFlatParts(Before(ctx), Flat(t.l), [(t.d, t.w)], Flat(t.r), After(ctx));
  }

  lemma OuterFlatParts<E>(b: seq<E>, l: seq<E>, e: seq<E>, r: seq<E>, a: seq<E>)
    ensures b + (l + e + r) + a == (b + l) + e + (r + a)
    ensures l == [] ==> b + r + a == (b + l) + (r + a)
    ensures r == [] ==> b + l + a == (b + l) + (r + a)
  {
  }

  /** A search that ends at an empty place: no element equals `d`. */
  lemma NotThere<D>(lower: (D, D) -> bool, tree: Tree<D>, ctx: Ctx<D>, d: D)
    requires Plug(ctx, Nil) == tree && FindPlace(lower, ctx, Nil, d)
    ensures forall i | 0 <= i < |Flat(tree)| :: !Equal(lower, Flat(tree)[i].0, d)
  {
    PlugFlat(ctx, Nil);
    assert Flat(tree) == Before(ctx) + After(ctx);
  }
}
