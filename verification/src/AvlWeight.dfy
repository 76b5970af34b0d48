/** Weights along the tree, and the arithmetic of the weighted descent. */
module AvlWeight {
  import opened AvlTree
  import opened AvlHeap
  import opened AvlMoves

  /** The weights of a run of elements together. */
  function Total<D>(s: seq<(D, nat)>): nat {
    if s == [] then 0 else s[0].1 + Total(s[1..])
  }

  lemma {:induction false} TotalJoin<D>(a: seq<(D, nat)>, b: seq<(D, nat)>)
    ensures Total(a + b) == Total(a) + Total(b)
  {
    if a == [] {
      assert a + b == b;
    } else {
      assert (a + b)[0] == a[0] && (a + b)[1..] == a[1..] + b;
      TotalJoin(a[1..], b);
    }
  }

  /** A subtree's weight is the weight of its elements. */
  lemma {:induction false} WeightFlat<D>(t: Tree<D>)
    ensures Weight(t) == Total(Flat(t))
  {
    if t.Bin? {
      WeightFlat(t.l);
      WeightFlat(t.r);
      TotalJoin(Flat(t.l) + [(t.d, t.w)], Flat(t.r));
      TotalJoin(Flat(t.l), [(t.d, t.w)]);
    }
  }

  /** The element at `k` covers a point of the whole weight, counted from the lowest element. */
  ghost predicate Covers<D>(s: seq<(D, nat)>, k: nat, point: real)
    requires k < |s|
  {
    Total(s[..k]) as real <= point <= Total(s[..k]) as real + s[k].1 as real
  }

  /** How far into the element at `k` the point lies. */
  ghost predicate Share<D>(s: seq<(D, nat)>, k: nat, point: real, share: real)
    requires k < |s|
  {
    share * s[k].1 as real == point - Total(s[..k]) as real
  }

  lemma ScaleLeft(r: real, lw: real, w: real)
    requires 0.0 <= r && 0.0 <= lw <= w && w > 0.0 && r < lw / w
    ensures lw > 0.0 && 0.0 <= r / (lw / w) <= 1.0 && (r / (lw / w)) * lw == r * w
  {
    var q := lw / w;
    assert q * w == lw;
    var x := r / q;
    assert x * q == r;
    assert x * lw == x * q * w;
  }

  lemma ScaleRight(r: real, m: real, w: real)
    requires r <= 1.0 && 0.0 <= m <= w && w > 0.0 && r > m / w
    ensures m < w && m / w < 1.0 && 0.0 <= (r - m / w) / (1.0 - m / w) <= 1.0
    ensures ((r - m / w) / (1.0 - m / w)) * (w - m) == r * w - m
  {
    var q := m / w;
    assert q * w == m;
    assert q < 1.0;
    var x := (r - q) / (1.0 - q);
    assert x * (1.0 - q) == r - q;
    assert x * (w - m) == x * (1.0 - q) * w;
  }

  lemma ScaleHere(r: real, lw: real, own: real, w: real)
    requires w > 0.0 && !(r < lw / w) && !(r > (lw + own) / w)
    ensures lw <= r * w <= lw + own
    ensures own > 0.0 ==>
      (lw + own) / w - lw / w > 0.0 && ((r - lw / w) / ((lw + own) / w - lw / w)) * own == r * w - lw
    ensures own == 0.0 ==> (lw + own) / w - lw / w == 0.0
  {
    var a, b := lw / w, (lw + own) / w;
    assert a * w == lw && b * w == lw + own;
    assert a * w <= r * w <= b * w;
    if own > 0.0 {
      var y := (r - a) / (b - a);
      assert (b - a) * w == own;
      assert y * (b - a) == r - a;
      assert y * own == y * (b - a) * w;
    }
  }

  /** The point lies `ratio` into a stretch of weight `w` that begins at `before`. */
  ghost predicate Within(ratio: real, w: real, before: real, point: real) {
    0.0 <= ratio <= 1.0 && w > 0.0 && ratio * w == point - before
  }

  lemma WithinLeft(ratio: real, lw: real, w: real, before: real, point: real)
    requires Within(ratio, w, before, point) && 0.0 <= lw <= w && ratio < lw / w
    ensures lw / w != 0.0 && Within(ratio / (lw / w), lw, before, point)
  {
    ScaleLeft(ratio, lw, w);
  }

  lemma WithinRight(ratio: real, m: real, w: real, before: real, point: real, rw: real, before': real)
    requires Within(ratio, w, before, point) && 0.0 <= m <= w && ratio > m / w && rw == w - m && before' == before + m
    ensures m / w < 1.0 && Within((ratio - m / w) / (1.0 - m / w), rw, before', point)
  {
    ScaleRight(ratio, m, w);
  }

  /** The weights of a node's parts, as reals. */
  lemma RealWeights<D>(ctx: Ctx<D>, t: Tree<D>)
    requires t.Bin?
    ensures 0.0 <= Weight(t.l) as real <= Weight(t) as real && 0.0 <= (Weight(t.l) + t.w) as real <= Weight(t) as real
    ensures Weight(t.r) as real == Weight(t) as real - (Weight(t.l) + t.w) as real
    ensures Total(Before(Inside(RightFrame(t), ctx))) as real ==
      Total(Before(ctx)) as real + (Weight(t.l) + t.w) as real
    ensures Total(Before(Inside(LeftFrame(t), ctx))) as real == Total(Before(ctx)) as real
  {
    BeforeChild(ctx, t);
  }

  lemma BeforeChild<D>(ctx: Ctx<D>, t: Tree<D>)
    requires t.Bin?
    ensures Total(Before(Inside(RightFrame(t), ctx))) == Total(Before(ctx)) + Weight(t.l) + t.w
    ensures Total(Before(Inside(LeftFrame(t), ctx))) == Total(Before(ctx))
  {
    WeightFlat(t.l);
    TotalJoin(Before(ctx), Flat(t.l) + [(t.d, t.w)]);
    TotalJoin(Flat(t.l), [(t.d, t.w)]);
    assert Before(Inside(LeftFrame(t), ctx)) == Before(ctx);
  }

  lemma MiddleIndex<E>(b: seq<E>, l: seq<E>, e: E, r: seq<E>, a: seq<E>)
    ensures var s := b + (l + [e] + r) + a; var k := |b| + |l|; k < |s| && s[k] == e && s[..k] == b + l
  {
    var s, k := b + (l + [e] + r) + a, |b| + |l|;
    assert s == (b + l) + ([e] + (r + a));
  }

  /** A node's index among the elements, and what comes before it. */
  lemma NodePlace<D>(b: seq<(D, nat)>, t: Tree<D>, a: seq<(D, nat)>, k: nat, s: seq<(D, nat)>)
    requires t.Bin? && k == |b| + |Flat(t.l)| && s == b + Flat(t) + a
    ensures k < |s| && s[k] == (t.d, t.w) && s[..k] == b + Flat(t.l)
  {
    var l, e, r := Flat(t.l), (t.d, t.w), Flat(t.r);
    assert Flat(t) == l + [e] + r;
    MiddleIndex(b, l, e, r, a);
  }

  /** A node's index among the elements, and the weight before it. */
  lemma NodeIndex<D>(tree: Tree<D>, ctx: Ctx<D>, t: Tree<D>, k: nat)
    requires Plug(ctx, t) == tree && t.Bin? && k == |Before(ctx)| + |Flat(t.l)|
    ensures k < |Flat(tree)| && Flat(tree)[k] == (t.d, t.w) &&
      Total(Flat(tree)[..k]) == Total(Before(ctx)) + Weight(t.l)
    ensures Total(Flat(tree)) == Weight(tree)
  {
    PlugFlat(ctx, t);
    NodePlace(Before(ctx), t, After(ctx), k, Flat(tree));
    WeightFlat(tree);
    WeightFlat(t.l);
    TotalJoin(Before(ctx), Flat(t.l));
  }

  /** A node's element is one of the tree's. */
  lemma IsThere<D>(tree: Tree<D>, ctx: Ctx<D>, t: Tree<D>, s: seq<(D, nat)>)
    requires Plug(ctx, t) == tree && t.Bin? && s == Flat(tree)
    ensures exists i :: 0 <= i < |s| && s[i].0 == t.d
  {
    var k := |Before(ctx)| + |Flat(t.l)|;
    NodeIndex(tree, ctx, t, k);
    assert s[k].0 == t.d;
  }

  /** The point lies in the stretch of the node itself. */
  lemma WithinHere(here: real, lw: real, own: real, w: real, before: real, point: real)
    requires Within(here, w, before, point) && !(here < lw / w) && !(here > (lw + own) / w)
    ensures before + lw <= point <= before + lw + own
    ensures own > 0.0 ==>
      (lw + own) / w - lw / w > 0.0 && ((here - lw / w) / ((lw + own) / w - lw / w)) * own == point - (before + lw)
    ensures own == 0.0 ==> (lw + own) / w - lw / w == 0.0
  {
    ScaleHere(here, lw, own, w);
  }

  // ---------- the descent ----------

  /** What the descent reads of a node. */
  lemma NodeWeights<D>(mem: Memory<D>, root: nat, ctx: Ctx<D>, t: Tree<D>)
    requires At(mem, root, ctx, t) && t.Bin?
    ensures t.a in mem && t.a != 0 && mem[t.a].subtreeWeight == Weight(t) && mem[t.a].ownWeight == t.w &&
      mem[t.a].data == t.d
    ensures mem[t.a].left == Root(t.l) && mem[t.a].right == Root(t.r) && (Root(t.l) == 0 <==> t.l.Nil?)
    ensures t.l.Bin? ==> t.l.a in mem && mem[t.l.a].subtreeWeight == Weight(t.l)
    ensures At(mem, root, Inside(RightFrame(t), ctx), t.r) && Plug(Inside(RightFrame(t), ctx), t.r) == Plug(ctx, t)
  {
    AtLoose(mem, root, ctx, t);
    GoRight(mem, root, ctx, t);
    SubRoot(mem, mem[t.a].left, t.l, t.a, LEFT);
    SubRoot(mem, mem[t.a].right, t.r, t.a, RIGHT);
  }

  /** The descent is at a subtree that holds the point. */
  ghost predicate Descending<D>(mem: Memory<D>, root: nat, tree: Tree<D>, ctx: Ctx<D>, t: Tree<D>, here: real,
      point: real) {
    && At(mem, root, ctx, t) && Plug(ctx, t) == tree && t.Bin?
    && Within(here, Weight(t) as real, Total(Before(ctx)) as real, point)
  }

  /** `share` of `own` is `rest`. */
  ghost predicate Part(share: real, own: real, rest: real) {
    share * own == rest
  }

  /**
    One turn: the point lies in the left part, in the right part, or in the node itself, `share` of the way
    into it.
   */
  datatype Turn = LeftTurn(there: real) | RightTurn(there: real) | Stop(share: real) | StopAtZero

  /** The comparisons and divisions of one turn. */
  method Weigh(here: real, lw: real, own: real, w: real, ghost before: real, ghost point: real) returns (turn: Turn)
    requires Within(here, w, before, point) && 0.0 <= lw && 0.0 <= own && lw + own <= w
    ensures turn.LeftTurn? ==> Within(turn.there, lw, before, point)
    ensures turn.RightTurn? ==> Within(turn.there, w - (lw + own), before + (lw + own), point)
    ensures turn.Stop? || turn.StopAtZero? ==> before + lw <= point <= before + lw + own && (turn.Stop? <==> own > 0.0)
    ensures turn.Stop? ==> Part(turn.share, own, point - (before + lw))
  {
    var leftEnd := lw / w;
    var rightEnd := (lw + own) / w;
    if here < leftEnd {
      WithinLeft(here, lw, w, before, point);
      turn := LeftTurn(here / leftEnd);
    } else if here > rightEnd {
      WithinRight(here, lw + own, w, before, point, w - (lw + own), before + (lw + own));
      turn := RightTurn((here - rightEnd) / (1.0 - rightEnd));
    } else {
      WithinHere(here, lw, own, w, before, point);
      if rightEnd - leftEnd != 0.0 {
        turn := Stop((here - leftEnd) / (rightEnd - leftEnd));
      } else {
        turn := StopAtZero;
      }
    }
  }

  lemma DescendLeft<D>(mem: Memory<D>, root: nat, tree: Tree<D>, ctx: Ctx<D>, t: Tree<D>, here: real, point: real,
      there: real)
    requires Descending(mem, root, tree, ctx, t, here, point) &&
      Within(there, Weight(t.l) as real, Total(Before(ctx)) as real, point)
    ensures Descending(mem, root, tree, Inside(LeftFrame(t), ctx), t.l, there, point)
  {
    AtLoose(mem, root, ctx, t);
    GoLeft(mem, root, ctx, t);
    RealWeights(ctx, t);
  }

  lemma DescendRight<D>(mem: Memory<D>, root: nat, tree: Tree<D>, ctx: Ctx<D>, t: Tree<D>, here: real, point: real,
      there: real, rw: real, before: real)
    requires Descending(mem, root, tree, ctx, t, here, point) && Within(there, rw, before, point)
    requires rw == Weight(t) as real - (Weight(t.l) + t.w) as real &&
      before == Total(Before(ctx)) as real + (Weight(t.l) + t.w) as real
    ensures Descending(mem, root, tree, Inside(RightFrame(t), ctx), t.r, there, point)
  {
    AtLoose(mem, root, ctx, t);
    GoRight(mem, root, ctx, t);
    RealWeights(ctx, t);
  }

  /** The descent stops: the node covers the point. */
  lemma DescendEnd<D>(tree: Tree<D>, ctx: Ctx<D>, t: Tree<D>, point: real, k: nat, p: real)
    requires Plug(ctx, t) == tree && t.Bin? && k == |Before(ctx)| + |Flat(t.l)|
    requires p == Total(Before(ctx)) as real + Weight(t.l) as real && p <= point <= p + t.w as real
    ensures k < |Flat(tree)| && Flat(tree)[k] == (t.d, t.w) && Covers(Flat(tree), k, point) &&
      Total(Flat(tree)[..k]) as real == p
  {
    NodeIndex(tree, ctx, t, k);
  }

  lemma ShareHere<D>(s: seq<(D, nat)>, k: nat, point: real, share: real, own: real, p: real)
    requires k < |s| && own == s[k].1 as real && p == Total(s[..k]) as real && Part(share, own, point - p)
    ensures Share(s, k, point, share)
  {
  }

  lemma StopHere<D>(tree: Tree<D>, ctx: Ctx<D>, t: Tree<D>, point: real, k: nat, share: real, own: real, p: real)
    requires Plug(ctx, t) == tree && t.Bin? && k == |Before(ctx)| + |Flat(t.l)| && own == t.w as real
    requires p == Total(Before(ctx)) as real + Weight(t.l) as real && p <= point <= p + own &&
      Part(share, own, point - p)
    ensures k < |Flat(tree)| && Flat(tree)[k] == (t.d, t.w) && Covers(Flat(tree), k, point) &&
      Share(Flat(tree), k, point, share)
  {
    DescendEnd(tree, ctx, t, point, k, p);
    ShareHere(Flat(tree), k, point, share, own, p);
  }
}
