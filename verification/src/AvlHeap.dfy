/**
  The nodes of the tree in memory: an address leads to a node with child and parent links, a tag that
  says which child it is, its height and its subtree's weight. Address 0 is NULL. `Sub` says that
  memory holds a given subtree, links and numbers exact; `Around` says that memory holds the frames of
  a place, whose own heights and weights may be out of date.
 */
module AvlHeap {
  import opened Common
  import opened AvlTree

  datatype Node<D> = Node(left: nat, right: nat, parent: nat, which: Which, height: nat, subtreeWeight: nat,
    ownWeight: nat, data: D)

  type Memory<D> = map<nat, Node<D>>

  function Root<D>(t: Tree<D>): nat { if t.Nil? then 0 else t.a }

  ghost function Addrs<D>(t: Tree<D>): set<nat> {
    if t.Nil? then {} else {t.a} + Addrs(t.l) + Addrs(t.r)
  }

  ghost function Top<D>(t: Tree<D>): set<nat> {
    if t.Nil? then {} else {t.a}
  }

  ghost function CAddrs<D>(ctx: Ctx<D>): set<nat> {
    if ctx.Here? then {} else {ctx.f.a} + Addrs(ctx.f.sib) + CAddrs(ctx.up)
  }

  ghost predicate Apart<D>(t: Tree<D>) {
    t.Bin? ==> t.a !in Addrs(t.l) && t.a !in Addrs(t.r) && Addrs(t.l) !! Addrs(t.r) && Apart(t.l) && Apart(t.r)
  }

  ghost predicate ApartC<D>(ctx: Ctx<D>) {
    ctx.Inside? ==>
      && ctx.f.side != ROOT && ctx.f.a !in Addrs(ctx.f.sib) && ctx.f.a !in CAddrs(ctx.up)
      && Addrs(ctx.f.sib) !! CAddrs(ctx.up) && Apart(ctx.f.sib) && ApartC(ctx.up)
  }

  ghost predicate Disjoint<D>(ctx: Ctx<D>, t: Tree<D>) {
    Apart(t) && ApartC(ctx) && Addrs(t) !! CAddrs(ctx)
  }

  function ParentOf<D>(ctx: Ctx<D>): nat { if ctx.Here? then 0 else ctx.f.a }
  function WhichOf<D>(ctx: Ctx<D>): Which { if ctx.Here? then ROOT else ctx.f.side }

  /** The node at the top of `t`, its heights and weights aside; what is below it exactly. */
  ghost predicate Loose<D>(mem: Memory<D>, p: nat, t: Tree<D>, par: nat, wh: Which) {
    match t
    case Nil => p == 0
    case Bin(a, w, d, l, r) =>
      && p == a && a != 0 && a in mem
      && mem[a].parent == par && mem[a].which == wh && mem[a].ownWeight == w && mem[a].data == d
      && Sub(mem, mem[a].left, l, a, LEFT) && Sub(mem, mem[a].right, r, a, RIGHT)
  }

  ghost predicate Sub<D>(mem: Memory<D>, p: nat, t: Tree<D>, par: nat, wh: Which)
    decreases t
  {
    match t
    case Nil => p == 0
    case Bin(a, w, d, l, r) =>
      && p == a && a != 0 && a in mem
      && mem[a].parent == par && mem[a].which == wh && mem[a].ownWeight == w && mem[a].data == d
      && mem[a].height + 1 == Lvl(t) && mem[a].subtreeWeight == Weight(t)
      && Sub(mem, mem[a].left, l, a, LEFT) && Sub(mem, mem[a].right, r, a, RIGHT)
  }

  /** Memory around a hole that holds address `hole`. */
  ghost predicate Around<D>(mem: Memory<D>, root: nat, ctx: Ctx<D>, hole: nat) {
    if ctx.Here? then root == hole
    else
      var f := ctx.f;
      && f.a != 0 && f.a in mem && mem[f.a].ownWeight == f.w && mem[f.a].data == f.d
      && mem[f.a].parent == ParentOf(ctx.up) && mem[f.a].which == WhichOf(ctx.up)
      && (if f.side == LEFT then mem[f.a].left == hole && Sub(mem, mem[f.a].right, f.sib, f.a, RIGHT)
          else mem[f.a].right == hole && Sub(mem, mem[f.a].left, f.sib, f.a, LEFT))
      && Around(mem, root, ctx.up, f.a)
  }

  /** Memory holds the tree `Plug(ctx, t)`, exact from the place down. */
  ghost predicate At<D>(mem: Memory<D>, root: nat, ctx: Ctx<D>, t: Tree<D>) {
    Disjoint(ctx, t) && Around(mem, root, ctx, Root(t)) && Sub(mem, Root(t), t, ParentOf(ctx), WhichOf(ctx))
  }

  /** The same, the heights and weights of the node at the place aside. */
  ghost predicate LooseAt<D>(mem: Memory<D>, root: nat, ctx: Ctx<D>, t: Tree<D>) {
    Disjoint(ctx, t) && Around(mem, root, ctx, Root(t)) && Loose(mem, Root(t), t, ParentOf(ctx), WhichOf(ctx))
  }

  // ---------- frames ----------

  ghost predicate SameOn<D>(mem: Memory<D>, mem': Memory<D>, s: set<nat>) {
    forall a | a in s && a in mem :: a in mem' && mem'[a] == mem[a]
  }

  lemma {:induction false} SubFrame<D>(mem: Memory<D>, mem': Memory<D>, p: nat, t: Tree<D>, par: nat, wh: Which)
    requires Sub(mem, p, t, par, wh) && SameOn(mem, mem', Addrs(t))
    ensures Sub(mem', p, t, par, wh)
    decreases t
  {
    if t.Bin? {
      SubFrame(mem, mem', mem[p].left, t.l, p, LEFT);
      SubFrame(mem, mem', mem[p].right, t.r, p, RIGHT);
    }
  }

  lemma {:induction false} AroundFrame<D>(mem: Memory<D>, mem': Memory<D>, root: nat, ctx: Ctx<D>, hole: nat)
    requires Around(mem, root, ctx, hole) && SameOn(mem, mem', CAddrs(ctx))
    ensures Around(mem', root, ctx, hole)
  {
    if ctx.Inside? {
      var f := ctx.f;
      if f.side == LEFT {
        SubFrame(mem, mem', mem[f.a].right, f.sib, f.a, RIGHT);
      } else {
        SubFrame(mem, mem', mem[f.a].left, f.sib, f.a, LEFT);
      }
      AroundFrame(mem, mem', root, ctx.up, f.a);
    }
  }

  /** `n` with another child in the hole of frame `f`. */
  function SetHole<D>(n: Node<D>, side: Which, p: nat): Node<D> {
    if side == LEFT then n.(left := p) else n.(right := p)
  }

  /** Storing another address into the hole; the innermost frame's numbers may change as well. */
  lemma AroundSwap<D>(mem: Memory<D>, mem': Memory<D>, root: nat, root': nat, ctx: Ctx<D>, hole: nat, hole': nat)
    requires Around(mem, root, ctx, hole) && ApartC(ctx)
    requires if ctx.Here? then root' == hole' else
      && root' == root && SameOn(mem, mem', CAddrs(ctx) - {ctx.f.a}) && ctx.f.a in mem'
      && mem'[ctx.f.a] == SetHole(mem[ctx.f.a], ctx.f.side, hole').(height := mem'[ctx.f.a].height,
        subtreeWeight := mem'[ctx.f.a].subtreeWeight)
    ensures Around(mem', root', ctx, hole')
  {
    if ctx.Inside? {
      var f := ctx.f;
      if f.side == LEFT {
        SubFrame(mem, mem', mem[f.a].right, f.sib, f.a, RIGHT);
      } else {
        SubFrame(mem, mem', mem[f.a].left, f.sib, f.a, LEFT);
      }
      AroundFrame(mem, mem', root, ctx.up, f.a);
    }
  }

  /** Giving a subtree's top node another parent and tag. */
  lemma SubAdopt<D>(mem: Memory<D>, mem': Memory<D>, p: nat, t: Tree<D>, par: nat, wh: Which, par': nat, wh': Which)
    requires Sub(mem, p, t, par, wh) && Apart(t)
    requires t.Bin? ==>
      p in mem' && mem'[p] == mem[p].(parent := par', which := wh') && SameOn(mem, mem', Addrs(t.l) + Addrs(t.r))
    ensures Sub(mem', p, t, par', wh')
  {
    if t.Bin? {
      SubFrame(mem, mem', mem[p].left, t.l, p, LEFT);
      SubFrame(mem, mem', mem[p].right, t.r, p, RIGHT);
    }
  }

  lemma SubRoot<D>(mem: Memory<D>, p: nat, t: Tree<D>, par: nat, wh: Which)
    requires Sub(mem, p, t, par, wh)
    ensures p == Root(t) && (p == 0 <==> t.Nil?) && (t.Bin? ==> p in mem && p in Addrs(t))
  {
  }

  // ---------- moving the place ----------

  function LeftFrame<D>(t: Tree<D>): Frame<D>
    requires t.Bin?
  {
    Frame(t.a, t.w, t.d, LEFT, t.r)
  }

  function RightFrame<D>(t: Tree<D>): Frame<D>
    requires t.Bin?
  {
    Frame(t.a, t.w, t.d, RIGHT, t.l)
  }

  lemma GoLeft<D>(mem: Memory<D>, root: nat, ctx: Ctx<D>, t: Tree<D>)
    requires LooseAt(mem, root, ctx, t) && t.Bin?
    ensures At(mem, root, Inside(LeftFrame(t), ctx), t.l) && Plug(Inside(LeftFrame(t), ctx), t.l) == Plug(ctx, t)
  {
  }

  lemma GoRight<D>(mem: Memory<D>, root: nat, ctx: Ctx<D>, t: Tree<D>)
    requires LooseAt(mem, root, ctx, t) && t.Bin?
    ensures At(mem, root, Inside(RightFrame(t), ctx), t.r) && Plug(Inside(RightFrame(t), ctx), t.r) == Plug(ctx, t)
  {
  }

  lemma GoUp<D>(mem: Memory<D>, root: nat, ctx: Ctx<D>, t: Tree<D>)
    requires At(mem, root, ctx, t) && ctx.Inside?
    ensures LooseAt(mem, root, ctx.up, Plug1(ctx.f, t))
  {
  }

  // ---------- rotations in memory ----------

  /** A node's height and weight as recomputed from its children. */
  function Refresh<D>(mem: Memory<D>, n: Node<D>): Node<D> {
    var hl := if n.left in mem && n.left != 0 then mem[n.left].height + 1 else 0;
    var hr := if n.right in mem && n.right != 0 then mem[n.right].height + 1 else 0;
    var wl := if n.left in mem && n.left != 0 then mem[n.left].subtreeWeight else 0;
    var wr := if n.right in mem && n.right != 0 then mem[n.right].subtreeWeight else 0;
    n.(height := Max(hl, hr), subtreeWeight := wl + wr + n.ownWeight)
  }

  /** Recomputing a node over exact children makes it exact. */
  lemma Refreshed<D>(mem: Memory<D>, p: nat, t: Tree<D>, par: nat, wh: Which)
    requires Loose(mem, p, t, par, wh) && Apart(t) && t.Bin?
    ensures Sub(mem[p := Refresh(mem, mem[p])], p, t, par, wh)
  {
    var mem' := mem[p := Refresh(mem, mem[p])];
    SubFrame(mem, mem', mem[p].left, t.l, p, LEFT);
    SubFrame(mem, mem', mem[p].right, t.r, p, RIGHT);
  }

  /** The links after `rotate_left`, before heights and weights are recomputed. */
  ghost predicate LeftLinks<D>(mem: Memory<D>, mem': Memory<D>, x: nat, z: nat, b: nat) {
    && x in mem && z in mem && x in mem' && z in mem' && x != z && b != x && b != z
    && mem'[x] == mem[x].(right := b, parent := z, which := LEFT)
    && mem'[z] == mem[z].(left := x, parent := mem[x].parent, which := mem[x].which)
    && (b != 0 ==> b in mem && b in mem' && mem'[b] == mem[b].(parent := x, which := RIGHT))
  }

  lemma LeftLinksLoose<D>(mem: Memory<D>, mem': Memory<D>, t: Tree<D>, par: nat, wh: Which)
    requires t.Bin? && t.r.Bin? && Apart(t) && Loose(mem, t.a, t, par, wh)
    requires LeftLinks(mem, mem', t.a, t.r.a, Root(t.r.l)) && SameOn(mem, mem', Addrs(t) - {t.a, t.r.a} - Top(t.r.l))
    ensures Loose(mem', t.a, RotL(t).l, t.r.a, LEFT) && Sub(mem', mem'[t.r.a].right, t.r.r, t.r.a, RIGHT)
    ensures t.r.a in mem' && mem'[t.r.a].left == t.a && mem'[t.r.a].parent == par && mem'[t.r.a].which == wh
    ensures mem'[t.r.a].ownWeight == t.r.w && mem'[t.r.a].data == t.r.d && t.r.a != 0
  {
    var x, z := t.a, t.r.a;
    SubFrame(mem, mem', mem[x].left, t.l, x, LEFT);
    SubFrame(mem, mem', mem[z].right, t.r.r, z, RIGHT);
    SubAdopt(mem, mem', mem[z].left, t.r.l, z, LEFT, x, RIGHT);
  }

  /** The links after `rotate_right`, before heights and weights are recomputed. */
  ghost predicate RightLinks<D>(mem: Memory<D>, mem': Memory<D>, x: nat, y: nat, b: nat) {
    && x in mem && y in mem && x in mem' && y in mem' && x != y && b != x && b != y
    && mem'[x] == mem[x].(left := b, parent := y, which := RIGHT)
    && mem'[y] == mem[y].(right := x, parent := mem[x].parent, which := mem[x].which)
    && (b != 0 ==> b in mem && b in mem' && mem'[b] == mem[b].(parent := x, which := LEFT))
  }

  lemma RightLinksLoose<D>(mem: Memory<D>, mem': Memory<D>, t: Tree<D>, par: nat, wh: Which)
    requires t.Bin? && t.l.Bin? && Apart(t) && Loose(mem, t.a, t, par, wh)
    requires RightLinks(mem, mem', t.a, t.l.a, Root(t.l.r)) && SameOn(mem, mem', Addrs(t) - {t.a, t.l.a} - Top(t.l.r))
    ensures Loose(mem', t.a, RotR(t).r, t.l.a, RIGHT) && Sub(mem', mem'[t.l.a].left, t.l.l, t.l.a, LEFT)
    ensures t.l.a in mem' && mem'[t.l.a].right == t.a && mem'[t.l.a].parent == par && mem'[t.l.a].which == wh
    ensures mem'[t.l.a].ownWeight == t.l.w && mem'[t.l.a].data == t.l.d && t.l.a != 0
  {
    var x, y := t.a, t.l.a;
    SubFrame(mem, mem', mem[x].right, t.r, x, RIGHT);
    SubFrame(mem, mem', mem[y].left, t.l.l, y, LEFT);
    SubAdopt(mem, mem', mem[y].right, t.l.r, y, RIGHT, x, LEFT);
  }

  lemma RotLApart<D>(t: Tree<D>)
    requires Apart(t) && t.Bin? && t.r.Bin?
    ensures Apart(RotL(t)) && Addrs(RotL(t)) == Addrs(t)
  {
    var low := RotL(t).l;
    assert Addrs(low) == {t.a} + Addrs(t.l) + Addrs(t.r.l);
    assert Apart(low);
  }

  lemma RotRApart<D>(t: Tree<D>)
    requires Apart(t) && t.Bin? && t.l.Bin?
    ensures Apart(RotR(t)) && Addrs(RotR(t)) == Addrs(t)
  {
    var high := RotR(t).r;
    assert Addrs(high) == {t.a} + Addrs(t.l.r) + Addrs(t.r);
    assert Apart(high);
  }

  // ---------- putting another node into the spine ----------

  lemma {:induction false} JoinApart<D>(path: Ctx<D>, ctx: Ctx<D>)
    ensures CAddrs(Join(path, ctx)) == CAddrs(path) + CAddrs(ctx)
    ensures ApartC(Join(path, ctx)) <==> ApartC(path) && ApartC(ctx) && CAddrs(path) !! CAddrs(ctx)
  {
    if path.Inside? { JoinApart(path.up, ctx); }
  }

  /** The child of the spine node `c` that leads into the path, or the hole if there is no path. */
  function Entry<D>(path: Ctx<D>, hole: nat): nat {
    if path.Here? then hole else Entry(path.up, path.f.a)
  }

  lemma {:induction false} EntryIn<D>(path: Ctx<D>, hole: nat)
    requires path.Inside?
    ensures Entry(path, hole) in CAddrs(path)
  {
    if path.up.Inside? { EntryIn(path.up, path.f.a); }
  }

  /** Node `u` takes the place of the spine node of frame `f`: its links, and the links of its neighbours. */
  ghost predicate Replaced<D>(mem: Memory<D>, mem': Memory<D>, root: nat, root': nat, path: Ctx<D>, f: Frame<D>,
      ctx: Ctx<D>, u: nat, hole: nat) {
    && f.a in mem && u in mem && u in mem'
    && mem'[u].left == mem[f.a].left && mem'[u].right == mem[f.a].right && mem'[u].parent == mem[f.a].parent &&
      mem'[u].which == mem[f.a].which
    && mem'[u].ownWeight == mem[u].ownWeight && mem'[u].data == mem[u].data
    && (f.sib.Bin? ==>
      f.sib.a in mem && f.sib.a in mem' && mem'[f.sib.a] == mem[f.sib.a].(parent := u) &&
      SameOn(mem, mem', Addrs(f.sib.l) + Addrs(f.sib.r)))
    && (path.Inside? ==>
      Entry(path, hole) in mem && Entry(path, hole) in mem' &&
      mem'[Entry(path, hole)] == mem[Entry(path, hole)].(parent := u))
    && SameOn(mem, mem', CAddrs(path) - (if path.Inside? then {Entry(path, hole)} else {}))
    && (if ctx.Here? then root' == u
        else root' == root && SameOn(mem, mem', CAddrs(ctx) - {ctx.f.a}) && ctx.f.a in mem && ctx.f.a in mem' &&
             mem'[ctx.f.a] == SetHole(mem[ctx.f.a], ctx.f.side, u))
  }

  ghost function SpineFrame<D>(mem: Memory<D>, f: Frame<D>, u: nat): Frame<D>
    requires u in mem
  {
    Frame(u, mem[u].ownWeight, mem[u].data, f.side, f.sib)
  }

  /** The spine node itself. */
  lemma SpineHere<D>(mem: Memory<D>, mem': Memory<D>, root: nat, root': nat, path: Ctx<D>, f: Frame<D>, ctx: Ctx<D>,
      u: nat, hole: nat, top: nat)
    requires Replaced(mem, mem', root, root', path, f, ctx, u, hole) && u != 0 && top == Entry(path, hole)
    requires Around(mem, root, Inside(f, ctx), top) && ApartC(Inside(f, ctx))
    ensures Around(mem', root', Inside(SpineFrame(mem, f, u), ctx), top)
  {
    if f.side == LEFT {
      SubAdopt(mem, mem', mem[f.a].right, f.sib, f.a, RIGHT, u, RIGHT);
    } else {
      SubAdopt(mem, mem', mem[f.a].left, f.sib, f.a, LEFT, u, LEFT);
    }
    AroundSwap(mem, mem', root, root', ctx, f.a, u);
  }

  /** What the replacement leaves of a part of the path. */
  ghost predicate PathKept<D>(mem: Memory<D>, mem': Memory<D>, path: Ctx<D>, hole: nat, u: nat) {
    && (path.Inside? ==>
      Entry(path, hole) in mem && Entry(path, hole) in mem' &&
      mem'[Entry(path, hole)] == mem[Entry(path, hole)].(parent := u))
    && SameOn(mem, mem', CAddrs(path) - (if path.Inside? then {Entry(path, hole)} else {}))
  }

  /** The frames of the path keep their places around the hole. */
  lemma {:induction false} SpineAround<D>(mem: Memory<D>, mem': Memory<D>, root: nat, root': nat, path: Ctx<D>,
      f: Frame<D>, g: Frame<D>, ctx: Ctx<D>, hole: nat)
    requires PathKept(mem, mem', path, hole, g.a) && ApartC(path) && f.side == g.side
    requires Around(mem, root, Join(path, Inside(f, ctx)), hole)
    requires Around(mem, root, Inside(f, ctx), Entry(path, hole)) ==>
      Around(mem', root', Inside(g, ctx), Entry(path, hole))
    ensures Around(mem', root', Join(path, Inside(g, ctx)), hole)
  {
    if path.Inside? {
      var p := path.f;
      if path.up.Inside? {
        EntryIn(path.up, p.a);
      }
      assert Entry(path, hole) == Entry(path.up, p.a) && Entry(path, hole) !in Addrs(p.sib);
      assert SameOn(mem, mem', Addrs(p.sib));
      if p.side == LEFT {
        SubFrame(mem, mem', mem[p.a].right, p.sib, p.a, RIGHT);
      } else {
        SubFrame(mem, mem', mem[p.a].left, p.sib, p.a, LEFT);
      }
      SpineAround(mem, mem', root, root', path.up, f, g, ctx, p.a);
    }
  }

  lemma {:induction false} AroundSpine<D>(mem: Memory<D>, root: nat, path: Ctx<D>, ctx: Ctx<D>, hole: nat)
    requires Around(mem, root, Join(path, ctx), hole)
    ensures Around(mem, root, ctx, Entry(path, hole))
  {
    if path.Inside? { AroundSpine(mem, root, path.up, ctx, path.f.a); }
  }

  /** Replacing a spine node by `u` turns its frame into `u`'s, and changes nothing else. */
  lemma SpineReplaced<D>(mem: Memory<D>, mem': Memory<D>, root: nat, root': nat, path: Ctx<D>, f: Frame<D>,
      ctx: Ctx<D>, u: nat, hole: nat)
    requires Replaced(mem, mem', root, root', path, f, ctx, u, hole) && u != 0
    requires Around(mem, root, Join(path, Inside(f, ctx)), hole) && ApartC(Join(path, Inside(f, ctx)))
    ensures Around(mem', root', Join(path, Inside(SpineFrame(mem, f, u), ctx)), hole)
  {
    JoinApart(path, Inside(f, ctx));
    AroundSpine(mem, root, path, Inside(f, ctx), hole);
    SpineHere(mem, mem', root, root', path, f, ctx, u, hole, Entry(path, hole));
    SpineAround(mem, mem', root, root', path, f, SpineFrame(mem, f, u), ctx, hole);
  }
}
