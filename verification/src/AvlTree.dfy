/**
  The balanced tree as a value: rotations, the repair of one node, and the repair of every node on
  the way to the root. `Lvl` is one more than the height a node stores, zero for no node. A place in
  a tree is a hole with frames around it, each with the subtree on its other side.
 */
module AvlTree {
  import opened Common

  datatype Which = LEFT | RIGHT | ROOT

  datatype Tree<D> = Nil | Bin(a: nat, w: nat, d: D, l: Tree<D>, r: Tree<D>)

  /** A node with a hole where one child was; `side` says which. */
  datatype Frame<D> = Frame(a: nat, w: nat, d: D, side: Which, sib: Tree<D>)

  /** The frames around a hole, innermost first. */
  datatype Ctx<D> = Here | Inside(f: Frame<D>, up: Ctx<D>)

  function Len<D>(ctx: Ctx<D>): nat {
    if ctx.Here? then 0 else 1 + Len(ctx.up)
  }

  function Gap(x: nat, y: nat): nat { if x > y then x - y else y - x }

  function Lvl<D>(t: Tree<D>): nat {
    if t.Nil? then 0 else 1 + Max(Lvl(t.l), Lvl(t.r))
  }

  function Weight<D>(t: Tree<D>): nat {
    if t.Nil? then 0 else Weight(t.l) + Weight(t.r) + t.w
  }

  /** The elements in order, with their own weights. */
  function Flat<D>(t: Tree<D>): seq<(D, nat)> {
    if t.Nil? then [] else Flat(t.l) + [(t.d, t.w)] + Flat(t.r)
  }

  /** Every node's subtrees differ in height by at most one. */
  ghost predicate Good<D>(t: Tree<D>) {
    t.Bin? ==> Good(t.l) && Good(t.r) && Gap(Lvl(t.l), Lvl(t.r)) <= 1
  }

  // ---------- rotations and the repair of a node ----------

  function RotL<D>(t: Tree<D>): Tree<D>
    requires t.Bin? && t.r.Bin?
  {
    Bin(t.r.a, t.r.w, t.r.d, Bin(t.a, t.w, t.d, t.l, t.r.l), t.r.r)
  }

  function RotR<D>(t: Tree<D>): Tree<D>
    requires t.Bin? && t.l.Bin?
  {
    Bin(t.l.a, t.l.w, t.l.d, t.l.l, Bin(t.a, t.w, t.d, t.l.r, t.r))
  }

  /** `fix_rotate_left` */
  function FixL<D>(t: Tree<D>): Tree<D>
    requires t.Bin? && t.r.Bin? && (Lvl(t.r.l) > Lvl(t.r.r) ==> t.r.l.Bin?)
  {
    if Lvl(t.r.r) < Lvl(t.r.l) then RotL(t.(r := RotR(t.r))) else RotL(t)
  }

  /** `fix_rotate_right` */
  function FixR<D>(t: Tree<D>): Tree<D>
    requires t.Bin? && t.l.Bin? && (Lvl(t.l.r) > Lvl(t.l.l) ==> t.l.r.Bin?)
  {
    if Lvl(t.l.r) > Lvl(t.l.l) then RotR(t.(l := RotL(t.l))) else RotR(t)
  }

  /** One turn of `balance_upwards`. */
  function Fix<D>(t: Tree<D>): Tree<D>
    requires t.Bin?
  {
    if Lvl(t.r) > Lvl(t.l) + 1 then FixL(t) else if Lvl(t.l) > Lvl(t.r) + 1 then FixR(t) else t
  }

  lemma RotFlat<D>(t: Tree<D>)
    requires t.Bin?
    ensures t.r.Bin? ==> Flat(RotL(t)) == Flat(t)
    ensures t.l.Bin? ==> Flat(RotR(t)) == Flat(t)
  {
    if t.r.Bin? { Regroup(Flat(t.l), [(t.d, t.w)], Flat(t.r.l), [(t.r.d, t.r.w)], Flat(t.r.r)); }
    if t.l.Bin? { Regroup(Flat(t.l.l), [(t.l.d, t.l.w)], Flat(t.l.r), [(t.d, t.w)], Flat(t.r)); }
  }

  lemma Regroup<E>(a: seq<E>, x: seq<E>, b: seq<E>, y: seq<E>, c: seq<E>)
    ensures (a + x + b) + y + c == a + x + (b + y + c)
  {
  }

  lemma FixFlat<D>(t: Tree<D>)
    requires t.Bin?
    ensures Flat(Fix(t)) == Flat(t)
  {
    RotFlat(t);
    if t.r.Bin? && t.r.l.Bin? {
      RotFlat(t.r);
      RotFlat(t.(r := RotR(t.r)));
    }
    if t.l.Bin? && t.l.r.Bin? {
      RotFlat(t.l);
      RotFlat(t.(l := RotL(t.l)));
    }
  }

  lemma FixLGood<D>(t: Tree<D>)
    requires t.Bin? && Good(t.l) && Good(t.r) && Lvl(t.r) == Lvl(t.l) + 2
    ensures Good(FixL(t)) && (Lvl(FixL(t)) == Lvl(t.r) || Lvl(FixL(t)) == Lvl(t.r) + 1)
  {
    var r := t.r;
    if Lvl(r.r) < Lvl(r.l) {
      var z := r.l;
      var low, high := Bin(t.a, t.w, t.d, t.l, z.l), Bin(r.a, r.w, r.d, z.r, r.r);
      assert FixL(t) == Bin(z.a, z.w, z.d, low, high);
      assert Good(z) && Good(low) && Good(high);
    } else {
      var low := Bin(t.a, t.w, t.d, t.l, r.l);
      assert FixL(t) == Bin(r.a, r.w, r.d, low, r.r);
      assert Good(low);
    }
  }

  lemma FixRGood<D>(t: Tree<D>)
    requires t.Bin? && Good(t.l) && Good(t.r) && Lvl(t.l) == Lvl(t.r) + 2
    ensures Good(FixR(t)) && (Lvl(FixR(t)) == Lvl(t.l) || Lvl(FixR(t)) == Lvl(t.l) + 1)
  {
    var l := t.l;
    if Lvl(l.r) > Lvl(l.l) {
      var z := l.r;
      var low, high := Bin(l.a, l.w, l.d, l.l, z.l), Bin(t.a, t.w, t.d, z.r, t.r);
      assert FixR(t) == Bin(z.a, z.w, z.d, low, high);
      assert Good(z) && Good(low) && Good(high);
    } else {
      var high := Bin(t.a, t.w, t.d, l.r, t.r);
      assert FixR(t) == Bin(l.a, l.w, l.d, l.l, high);
      assert Good(high);
    }
  }

  /** The repaired node is balanced and as high as the higher child before, or one higher. */
  lemma FixGood<D>(t: Tree<D>)
    requires t.Bin? && Good(t.l) && Good(t.r) && Gap(Lvl(t.l), Lvl(t.r)) <= 2
    ensures Good(Fix(t)) && Fix(t).Bin?
    ensures var m := Max(Lvl(t.l), Lvl(t.r)); Lvl(Fix(t)) == m + 1 || (Lvl(Fix(t)) == m && Gap(Lvl(t.l), Lvl(t.r)) == 2)
  {
    if Lvl(t.r) > Lvl(t.l) + 1 { FixLGood(t); } else if Lvl(t.l) > Lvl(t.r) + 1 { FixRGood(t); }
  }

  lemma FixSame<D>(t: Tree<D>)
    requires t.Bin? && Gap(Lvl(t.l), Lvl(t.r)) <= 1
    ensures Fix(t) == t
  {
  }

  /** A repaired node goes down one level, to the side that was too low. */
  lemma FixMovesDown<D>(t: Tree<D>)
    requires t.Bin?
    ensures Lvl(t.r) > Lvl(t.l) + 1 ==> Fix(t) == FixL(t) && FixL(t).Bin? && FixL(t).l.Bin? && FixL(t).l.a == t.a
    ensures Lvl(t.l) > Lvl(t.r) + 1 ==> Fix(t) == FixR(t) && FixR(t).Bin? && FixR(t).r.Bin? && FixR(t).r.a == t.a
  {
  }

  // ---------- places ----------

  function Plug1<D>(f: Frame<D>, t: Tree<D>): (p: Tree<D>)
    ensures p.Bin?
  {
    if f.side == LEFT then Bin(f.a, f.w, f.d, t, f.sib) else Bin(f.a, f.w, f.d, f.sib, t)
  }

  function Plug<D>(ctx: Ctx<D>, t: Tree<D>): Tree<D> {
    if ctx.Here? then t else Plug(ctx.up, Plug1(ctx.f, t))
  }

  /** `balance_upwards`: every node from the place to the root repaired in turn. */
  function Up<D>(ctx: Ctx<D>, t: Tree<D>): Tree<D> {
    if ctx.Here? then t else Up(ctx.up, Fix(Plug1(ctx.f, t)))
  }

  function Before<D>(ctx: Ctx<D>): seq<(D, nat)> {
    if ctx.Here? then [] else
    Before(ctx.up) + if ctx.f.side == LEFT then [] else Flat(ctx.f.sib) + [(ctx.f.d, ctx.f.w)]
  }

  function After<D>(ctx: Ctx<D>): seq<(D, nat)> {
    if ctx.Here? then [] else
    (if ctx.f.side == LEFT then [(ctx.f.d, ctx.f.w)] + Flat(ctx.f.sib) else []) + After(ctx.up)
  }

  lemma LeftOf<E>(b: seq<E>, t: seq<E>, x: seq<E>, sib: seq<E>, a: seq<E>)
    ensures b + (t + x + sib) + a == (b + []) + t + ((x + sib) + a)
  {
  }

  lemma RightOf<E>(b: seq<E>, sib: seq<E>, x: seq<E>, t: seq<E>, a: seq<E>)
    ensures b + (sib + x + t) + a == (b + (sib + x)) + t + ([] + a)
  {
  }

  /** The elements of a frame with its subtree, regrouped around the subtree. */
  lemma FrameFlat<D>(ctx: Ctx<D>, t: Tree<D>)
    requires ctx.Inside?
    ensures Before(ctx.up) + Flat(Plug1(ctx.f, t)) + After(ctx.up) == Before(ctx) + Flat(t) + After(ctx)
  {
    var f := ctx.f;
    if f.side == LEFT {
      LeftOf(Before(ctx.up), Flat(t), [(f.d, f.w)], Flat(f.sib), After(ctx.up));
    } else {
      RightOf(Before(ctx.up), Flat(f.sib), [(f.d, f.w)], Flat(t), After(ctx.up));
    }
  }

  lemma {:induction false} PlugFlat<D>(ctx: Ctx<D>, t: Tree<D>)
    ensures Flat(Plug(ctx, t)) == Before(ctx) + Flat(t) + After(ctx)
  {
    if ctx.Inside? {
      PlugFlat(ctx.up, Plug1(ctx.f, t));
      FrameFlat(ctx, t);
    }
  }

  lemma {:induction false} UpFlat<D>(ctx: Ctx<D>, t: Tree<D>)
    ensures Flat(Up(ctx, t)) == Before(ctx) + Flat(t) + After(ctx)
  {
    if ctx.Inside? {
      UpFlat(ctx.up, Fix(Plug1(ctx.f, t)));
      FixFlat(Plug1(ctx.f, t));
      FrameFlat(ctx, t);
    }
  }

  // ---------- balance on the way up ----------

  ghost predicate Sibs<D>(ctx: Ctx<D>) {
    ctx.Inside? ==> Good(ctx.f.sib) && Sibs(ctx.up)
  }

  /** The frames are balanced around a subtree of level `h`. */
  ghost predicate Settled<D>(ctx: Ctx<D>, h: nat) {
    ctx.Inside? ==> Gap(h, Lvl(ctx.f.sib)) <= 1 && Settled(ctx.up, 1 + Max(h, Lvl(ctx.f.sib)))
  }

  /**
    The innermost frame is off balance by no more than two, and its repair leaves the next frames,
    settled around a subtree of level `was`, no worse off than a change of level by one.
   */
  ghost predicate Ready<D>(ctx: Ctx<D>, h: nat, was: nat) {
    ctx.Inside? ==>
      var s := Lvl(ctx.f.sib);
      var m := Max(h, s);
      && Gap(h, s) <= 2 && Settled(ctx.up, was) && Gap(m + 1, was) <= 1 && (Gap(h, s) == 2 ==> Gap(m, was) <= 1)
  }

  /** The level of the innermost frame around a subtree of level `h`. */
  function FrameLvl<D>(ctx: Ctx<D>, h: nat): nat {
    if ctx.Here? then 0 else 1 + Max(h, Lvl(ctx.f.sib))
  }

  /** Frames settled around one level are ready for a subtree one higher or lower. */
  lemma SettledReady<D>(ctx: Ctx<D>, was: nat, now: nat)
    requires Settled(ctx, was) && Gap(was, now) <= 1
    ensures Ready(ctx, now, FrameLvl(ctx, was))
  {
  }

  /** Repairing every node up to the root restores balance everywhere. */
  lemma {:induction false} UpGood<D>(ctx: Ctx<D>, t: Tree<D>, was: nat)
    requires Good(t) && Sibs(ctx) && Ready(ctx, Lvl(t), was)
    ensures Good(Up(ctx, t))
  {
    if ctx.Inside? {
      var p := Plug1(ctx.f, t);
      FixGood(p);
      SettledReady(ctx.up, was, Lvl(Fix(p)));
      UpGood(ctx.up, Fix(p), FrameLvl(ctx.up, was));
    }
  }

  lemma {:induction false} GoodSettled<D>(ctx: Ctx<D>, t: Tree<D>)
    requires Good(Plug(ctx, t))
    ensures Good(t) && Sibs(ctx) && Settled(ctx, Lvl(t))
  {
    if ctx.Inside? {
      GoodSettled(ctx.up, Plug1(ctx.f, t));
    }
  }

  // ---------- a path below a place ----------

  /** The frames of `path`, inside those of `ctx`. */
  function Join<D>(path: Ctx<D>, ctx: Ctx<D>): Ctx<D> {
    if path.Here? then ctx else Inside(path.f, Join(path.up, ctx))
  }

  /** Every step of the path went left. */
  ghost predicate AllLeft<D>(path: Ctx<D>) {
    path.Inside? ==> path.f.side == LEFT && AllLeft(path.up)
  }

  lemma {:induction false} JoinBefore<D>(path: Ctx<D>, ctx: Ctx<D>)
    requires AllLeft(path)
    ensures Before(Join(path, ctx)) == Before(ctx)
  {
    if path.Inside? { JoinBefore(path.up, ctx); }
  }

  lemma {:induction false} JoinAfter<D>(path: Ctx<D>, ctx: Ctx<D>)
    ensures After(Join(path, ctx)) == After(path) + After(ctx)
  {
    if path.Inside? {
      JoinAfter(path.up, ctx);
      var x := if path.f.side == LEFT then [(path.f.d, path.f.w)] + Flat(path.f.sib) else [];
      assert After(path) == x + After(path.up);
      assert After(Join(path, ctx)) == x + (After(path.up) + After(ctx));
    }
  }

  /** Levels look at the other sides of the frames only. */
  lemma {:induction false} JoinSwap<D>(path: Ctx<D>, f: Frame<D>, g: Frame<D>, ctx: Ctx<D>, h: nat)
    requires f.sib == g.sib
    ensures Settled(Join(path, Inside(f, ctx)), h) ==> Settled(Join(path, Inside(g, ctx)), h)
    ensures Sibs(Join(path, Inside(f, ctx))) ==> Sibs(Join(path, Inside(g, ctx)))
  {
    if path.Inside? { JoinSwap(path.up, f, g, ctx, 1 + Max(h, Lvl(path.f.sib))); }
  }

  // ---------- a hole ----------

  /** The same node with its other child at the hole. */
  function OtherFrame<D>(f: Frame<D>): Frame<D> {
    Frame(f.a, f.w, f.d, if f.side == LEFT then RIGHT else LEFT, Nil)
  }

  /** Where a leaf was removed, the climb starts from the leaf's sibling, or from its parent if there is none. */
  lemma HoleReady<D>(ctx: Ctx<D>)
    requires ctx.Inside? && ctx.f.side != ROOT && Sibs(ctx) && Settled(ctx, 1)
    ensures ctx.f.sib.Bin? ==>
      var c := Inside(OtherFrame(ctx.f), ctx.up);
      Sibs(c) && Ready(c, Lvl(ctx.f.sib), FrameLvl(ctx, 1)) && Up(c, ctx.f.sib) == Up(ctx, Nil)
    ensures ctx.f.sib.Nil? ==>
      var p := Plug1(ctx.f, Nil);
      Good(p) && Sibs(ctx.up) && Ready(ctx.up, Lvl(p), FrameLvl(ctx.up, 2)) && Up(ctx.up, p) == Up(ctx, Nil)
  {
    if ctx.f.sib.Bin? {
      assert Plug1(OtherFrame(ctx.f), ctx.f.sib) == Plug1(ctx.f, Nil);
    } else {
      FixSame(Plug1(ctx.f, Nil));
      SettledReady(ctx.up, 2, 1);
    }
  }
}
