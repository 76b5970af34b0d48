/** `wre_tree_t`: the operations that change the tree in place. */
module AvlClass {
  import opened Common
  import opened AvlTree
  import opened AvlHeap
  import opened AvlOrder
  import opened AvlMoves
  import opened AvlWeight

  class WreTree<D(!new)> {
    var root: nat
    var mem: Memory<D>
    const lower: (D, D) -> bool
    ghost var tree: Tree<D>

    /** Memory holds `tree` exactly, balanced and in order. */
    ghost predicate Valid()
      reads this
    {
      StrictWeak(lower) && At(mem, root, Here, tree) && Good(tree) && Sorted(lower, Flat(tree))
    }

    /** `wre_create` */
    constructor (compare: (D, D) -> bool)
      requires StrictWeak(compare)
      ensures Valid() && lower == compare && Flat(tree) == []
    {
      root := 0;
      mem := map[];
      lower := compare;
      tree := Nil;
    }

    /** `update_node_subtree_metadata` */
    method UpdateNode(p: nat)
      requires p in mem && (mem[p].left != 0 ==> mem[p].left in mem) && (mem[p].right != 0 ==> mem[p].right in mem)
      modifies this`mem
      ensures mem == old(mem)[p := Refresh(old(mem), old(mem)[p])]
    {
      var n := mem[p];
      var leftDepth := if n.left != 0 then mem[n.left].height + 1 else 0;
      var rightDepth := if n.right != 0 then mem[n.right].height + 1 else 0;
      var leftWeight := if n.left != 0 then mem[n.left].subtreeWeight else 0;
      var rightWeight := if n.right != 0 then mem[n.right].subtreeWeight else 0;
      mem := mem[p := n.(height := Max(leftDepth, rightDepth))];
      mem := mem[p := mem[p].(subtreeWeight := leftWeight + rightWeight + n.ownWeight)];
    }

    /** A store through `get_root_placeholder`, taken when the node had parent `par` and tag `which`. */
    method SetPlaceholder(par: nat, which: Which, p: nat)
      requires which != ROOT ==> par in mem
      modifies this`mem, this`root
      ensures which == ROOT ==> root == p && mem == old(mem)
      ensures which != ROOT ==> root == old(root) && mem == old(mem)[par := SetHole(old(mem)[par], which, p)]
    {
      match which {
        case LEFT => mem := mem[par := mem[par].(left := p)];
        case RIGHT => mem := mem[par := mem[par].(right := p)];
        case ROOT => root := p;
      }
    }

    /** The first stores of `rotate_left`: the middle subtree goes over to `x`, and `x` under `z`. */
    method HangLeft(x: nat, z: nat, b: nat)
      requires x in mem && z in mem && x != z && b != x && b != z && (b != 0 ==> b in mem)
      modifies this`mem
      ensures mem.Keys == old(mem).Keys
      ensures mem[x] == old(mem)[x].(right := b, parent := z) && mem[z] == old(mem)[z].(left := x)
      ensures b != 0 ==> mem[b] == old(mem)[b].(parent := x)
      ensures forall a | a in old(mem) && a !in {x, z} && !(b != 0 && a == b) :: mem[a] == old(mem)[a]
    {
      mem := mem[x := mem[x].(right := b)];
      if b != 0 { mem := mem[b := mem[b].(parent := x)]; }
      mem := mem[z := mem[z].(left := x)];
      mem := mem[x := mem[x].(parent := z)];
    }

    /** The stores that pass on parent and tag. */
    method TagLeft(x: nat, z: nat, b: nat, par: nat)
      requires x in mem && z in mem && x != z && b != x && b != z && (b != 0 ==> b in mem)
      modifies this`mem
      ensures mem.Keys == old(mem).Keys
      ensures mem[x] == old(mem)[x].(which := LEFT) && mem[z] == old(mem)[z].(parent := par, which := old(mem)[x].which)
      ensures b != 0 ==> mem[b] == old(mem)[b].(which := RIGHT)
      ensures forall a | a in old(mem) && a !in {x, z} && !(b != 0 && a == b) :: mem[a] == old(mem)[a]
    {
      mem := mem[z := mem[z].(parent := par)];
      mem := mem[z := mem[z].(which := mem[x].which)];
      mem := mem[x := mem[x].(which := LEFT)];
      if b != 0 { mem := mem[b := mem[b].(which := RIGHT)]; }
    }

    /** The stores of `rotate_left` up to the recomputation of heights and weights. */
    method LinkLeft(x: nat, z: nat, b: nat, par: nat, which: Which)
      requires x in mem && z in mem && x != z && b != x && b != z && (b != 0 ==> b in mem)
      requires mem[x].right == z && mem[z].left == b && mem[x].parent == par && mem[x].which == which
      requires which != ROOT ==> par in mem && par != x && par != z && !(b != 0 && par == b)
      modifies this
      ensures LeftStored(old(mem), mem, old(root), root, x, z, b, par, which)
    {
      HangLeft(x, z, b);
      SetPlaceholder(par, which, z);
      TagLeft(x, z, b, par);
    }

    /** The first stores of `rotate_right`: the middle subtree goes over to `x`, and `x` under `y`. */
    method HangRight(x: nat, y: nat, b: nat)
      requires x in mem && y in mem && x != y && b != x && b != y && (b != 0 ==> b in mem)
      modifies this`mem
      ensures mem.Keys == old(mem).Keys
      ensures mem[x] == old(mem)[x].(left := b, parent := y) && mem[y] == old(mem)[y].(right := x)
      ensures b != 0 ==> mem[b] == old(mem)[b].(parent := x)
      ensures forall a | a in old(mem) && a !in {x, y} && !(b != 0 && a == b) :: mem[a] == old(mem)[a]
    {
      mem := mem[x := mem[x].(left := b)];
      if b != 0 { mem := mem[b := mem[b].(parent := x)]; }
      mem := mem[y := mem[y].(right := x)];
      mem := mem[x := mem[x].(parent := y)];
    }

    /** The stores that pass on parent and tag. */
    method TagRight(x: nat, y: nat, b: nat, par: nat)
      requires x in mem && y in mem && x != y && b != x && b != y && (b != 0 ==> b in mem)
      modifies this`mem
      ensures mem.Keys == old(mem).Keys
      ensures mem[x] == old(mem)[x].(which := RIGHT) &&
        mem[y] == old(mem)[y].(parent := par, which := old(mem)[x].which)
      ensures b != 0 ==> mem[b] == old(mem)[b].(which := LEFT)
      ensures forall a | a in old(mem) && a !in {x, y} && !(b != 0 && a == b) :: mem[a] == old(mem)[a]
    {
      mem := mem[y := mem[y].(parent := par)];
      mem := mem[y := mem[y].(which := mem[x].which)];
      mem := mem[x := mem[x].(which := RIGHT)];
      if b != 0 { mem := mem[b := mem[b].(which := LEFT)]; }
    }

    /** The stores of `rotate_right` up to the recomputation of heights and weights. */
    method LinkRight(x: nat, y: nat, b: nat, par: nat, which: Which)
      requires x in mem && y in mem && x != y && b != x && b != y && (b != 0 ==> b in mem)
      requires mem[x].left == y && mem[y].right == b && mem[x].parent == par && mem[x].which == which
      requires which != ROOT ==> par in mem && par != x && par != y && !(b != 0 && par == b)
      modifies this
      ensures RightStored(old(mem), mem, old(root), root, x, y, b, par, which)
    {
      HangRight(x, y, b);
      SetPlaceholder(par, which, y);
      TagRight(x, y, b, par);
    }

    method RotateLeft(x: nat, ghost ctx: Ctx<D>, ghost t: Tree<D>)
      requires LooseAt(mem, root, ctx, t) && t.Bin? && t.r.Bin? && x == t.a
      modifies this
      ensures At(mem, root, ctx, RotL(t))
    {
      LeftPieces(mem, root, ctx, t);
      var z := mem[x].right;
      var b := mem[z].left;
      LinkLeft(x, z, b, mem[x].parent, mem[x].which);
      ghost var m1 := mem;
      UpdateNode(x);
      ghost var m2 := mem;
      UpdateNode(z);
      LeftDone(old(mem), m1, m2, mem, old(root), root, ctx, t);
    }

    method RotateRight(x: nat, ghost ctx: Ctx<D>, ghost t: Tree<D>)
      requires LooseAt(mem, root, ctx, t) && t.Bin? && t.l.Bin? && x == t.a
      modifies this
      ensures At(mem, root, ctx, RotR(t))
    {
      RightPieces(mem, root, ctx, t);
      var y := mem[x].left;
      var b := mem[y].right;
      LinkRight(x, y, b, mem[x].parent, mem[x].which);
      ghost var m1 := mem;
      UpdateNode(x);
      ghost var m2 := mem;
      UpdateNode(y);
      RightDone(old(mem), m1, m2, mem, old(root), root, ctx, t);
    }

    method FixRotateLeft(x: nat, ghost ctx: Ctx<D>, ghost t: Tree<D>)
      requires LooseAt(mem, root, ctx, t) && t.Bin? && t.r.Bin? && x == t.a && Good(t.r)
      modifies this
      ensures At(mem, root, ctx, FixL(t))
    {
      ChildLevels(mem, root, ctx, t);
      var right := mem[x].right;
      GoRight(mem, root, ctx, t);
      AtLoose(mem, root, Inside(RightFrame(t), ctx), t.r);
      ChildLevels(mem, root, Inside(RightFrame(t), ctx), t.r);
      var leftNodes: int := Depth(mem, mem[right].left);
      var rightNodes: int := Depth(mem, mem[right].right);
      var diff := rightNodes - leftNodes;
      assert diff >= -2;
      assert diff >= -1;
      ghost var u := t;
      if diff < 0 {
        RotateRight(right, Inside(RightFrame(t), ctx), t.r);
        u := t.(r := RotR(t.r));
        GoUp(mem, root, Inside(RightFrame(t), ctx), RotR(t.r));
      }
      RotateLeft(x, ctx, u);
    }

    method FixRotateRight(x: nat, ghost ctx: Ctx<D>, ghost t: Tree<D>)
      requires LooseAt(mem, root, ctx, t) && t.Bin? && t.l.Bin? && x == t.a && Good(t.l)
      modifies this
      ensures At(mem, root, ctx, FixR(t))
    {
      ChildLevels(mem, root, ctx, t);
      var left := mem[x].left;
      GoLeft(mem, root, ctx, t);
      AtLoose(mem, root, Inside(LeftFrame(t), ctx), t.l);
      ChildLevels(mem, root, Inside(LeftFrame(t), ctx), t.l);
      var leftNodes: int := Depth(mem, mem[left].left);
      var rightNodes: int := Depth(mem, mem[left].right);
      var diff := rightNodes - leftNodes;
      assert diff <= 2;
      assert diff <= 1;
      ghost var u := t;
      if diff > 0 {
        RotateLeft(left, Inside(LeftFrame(t), ctx), t.l);
        u := t.(l := RotL(t.l));
        GoUp(mem, root, Inside(LeftFrame(t), ctx), RotL(t.l));
      }
      RotateRight(x, ctx, u);
    }

    /** A turn at a right-heavy node. */
    method ClimbLeft(node: nat, ghost ctx: Ctx<D>, ghost t: Tree<D>, ghost was: nat)
      returns (ghost ctx': Ctx<D>, ghost t': Tree<D>, ghost was': nat)
      requires ctx.Inside? && LooseAt(mem, root, ctx.up, Plug1(ctx.f, t)) && node == ctx.f.a && ctx.f.side != ROOT
      requires Good(t) && Sibs(ctx) && Ready(ctx, Lvl(t), was) && Lvl(Plug1(ctx.f, t).r) > Lvl(Plug1(ctx.f, t).l) + 1
      modifies this
      ensures Climbing(mem, root, ctx', t', was') && t'.a == node && Up(ctx', t') == Up(ctx, t) &&
        Turns(ctx', t') < Turns(ctx, t)
    {
      ghost var up, p := ctx.up, Plug1(ctx.f, t);
      ClimbFits(ctx, t, was);
      FixMovesDown(p);
      FixRotateLeft(node, up, p);
      ClimbRotated(mem, root, up, FixL(p), LeftFrame(FixL(p)), FixL(p).l, was);
      ctx', t', was' := Inside(LeftFrame(FixL(p)), up), FixL(p).l, was;
    }

    /** A turn at a left-heavy node. */
    method ClimbRight(node: nat, ghost ctx: Ctx<D>, ghost t: Tree<D>, ghost was: nat)
      returns (ghost ctx': Ctx<D>, ghost t': Tree<D>, ghost was': nat)
      requires ctx.Inside? && LooseAt(mem, root, ctx.up, Plug1(ctx.f, t)) && node == ctx.f.a && ctx.f.side != ROOT
      requires Good(t) && Sibs(ctx) && Ready(ctx, Lvl(t), was) && Lvl(Plug1(ctx.f, t).l) > Lvl(Plug1(ctx.f, t).r) + 1
      modifies this
      ensures Climbing(mem, root, ctx', t', was') && t'.a == node && Up(ctx', t') == Up(ctx, t) &&
        Turns(ctx', t') < Turns(ctx, t)
    {
      ghost var up, p := ctx.up, Plug1(ctx.f, t);
      ClimbFits(ctx, t, was);
      FixMovesDown(p);
      FixRotateRight(node, up, p);
      ClimbRotated(mem, root, up, FixR(p), RightFrame(FixR(p)), FixR(p).r, was);
      ctx', t', was' := Inside(RightFrame(FixR(p)), up), FixR(p).r, was;
    }

    /** One turn of the loop of `balance_upwards`. */
    method ClimbOne(node: nat, ghost ctx: Ctx<D>, ghost t: Tree<D>, ghost was: nat)
      returns (ghost ctx': Ctx<D>, ghost t': Tree<D>, ghost was': nat)
      requires ctx.Inside? && LooseAt(mem, root, ctx.up, Plug1(ctx.f, t)) && node == ctx.f.a && ctx.f.side != ROOT
      requires Good(t) && Sibs(ctx) && Ready(ctx, Lvl(t), was)
      modifies this
      ensures Climbing(mem, root, ctx', t', was') && t'.a == node && Up(ctx', t') == Up(ctx, t) &&
        Turns(ctx', t') < Turns(ctx, t)
    {
      ghost var up, p := ctx.up, Plug1(ctx.f, t);
      ClimbFits(ctx, t, was);
      ChildLevels(mem, root, up, p);
      var leftNodes: int := Depth(mem, mem[node].left);
      var rightNodes: int := Depth(mem, mem[node].right);
      var diff := rightNodes - leftNodes;
      assert (if diff >= 0 then diff else -diff) <= 3;
      if diff > 1 {
        ctx', t', was' := ClimbLeft(node, ctx, t, was);
      } else if diff < -1 {
        ctx', t', was' := ClimbRight(node, ctx, t, was);
      } else {
        RefreshAt(mem, root, up, p);
        UpdateNode(node);
        FixSame(p);
        SettledReady(up, was, Lvl(p));
        ctx', t', was' := up, p, FrameLvl(up, was);
      }
    }

    /** Repairs every node above a place, although after a rotation the loop looks at the repaired node once more. */
    method BalanceUpwards(start: nat, ghost ctx0: Ctx<D>, ghost t0: Tree<D>, ghost was0: nat)
      requires Climbing(mem, root, ctx0, t0, was0) && start == t0.a
      modifies this
      ensures At(mem, root, Here, Up(ctx0, t0))
    {
      var node := start;
      ghost var ctx, t, was := ctx0, t0, was0;
      while mem[node].parent != 0
        invariant Climbing(mem, root, ctx, t, was) && node == t.a && Up(ctx, t) == Up(ctx0, t0)
        decreases Turns(ctx, t)
      {
        assert ctx.Inside? && mem[node].parent == ctx.f.a && node in Addrs(t) && ctx.f.a in CAddrs(ctx);
        assert node != mem[node].parent;
        node := mem[node].parent;
        GoUp(mem, root, ctx, t);
        ctx, t, was := ClimbOne(node, ctx, t, was);
      }
      assert ctx.Here?;
    }

    // ---------- wre_put ----------

    /** The descent of `wre_put`: the empty place for `d`, by its parent and side. */
    method FindPlaceFor(d: D) returns (parent: nat, which: Which, ghost ctx: Ctx<D>)
      requires Valid()
      ensures At(mem, root, ctx, Nil) && parent == ParentOf(ctx) && which == WhichOf(ctx)
      ensures Plug(ctx, Nil) == tree && PutPlace(lower, ctx, Nil, d)
    {
      var cur := root;
      parent, which := 0, ROOT;
      ctx := Here;
      ghost var t := tree;
      while cur != 0
        invariant At(mem, root, ctx, t) && cur == Root(t) && parent == ParentOf(ctx) && which == WhichOf(ctx)
        invariant Plug(ctx, t) == tree && PutPlace(lower, ctx, t, d)
        decreases t
      {
        AtLoose(mem, root, ctx, t);
        ChildLevels(mem, root, ctx, t);
        parent := cur;
        if lower(mem[cur].data, d) {
          GoRight(mem, root, ctx, t);
          StepRight(lower, ctx, t, RightFrame(t), d);
          ctx, t := Inside(RightFrame(t), ctx), t.r;
          cur := mem[cur].right;
          which := RIGHT;
        } else {
          GoLeft(mem, root, ctx, t);
          StepLeft(lower, ctx, t, LeftFrame(t), d);
          ctx, t := Inside(LeftFrame(t), ctx), t.l;
          cur := mem[cur].left;
          which := LEFT;
        }
      }
    }

    /** Fills a new node and links it into an empty place. */
    method LinkNew(d: D, weight: nat, addr: nat, parent: nat, which: Which, ghost ctx: Ctx<D>)
      requires At(mem, root, ctx, Nil) && addr != 0 && addr !in CAddrs(ctx) && parent == ParentOf(ctx) &&
        which == WhichOf(ctx)
      modifies this`mem, this`root
      ensures At(mem, root, ctx, Bin(addr, weight, d, Nil, Nil))
    {
      assert ctx.Inside? ==> ctx.f.a in CAddrs(ctx) && ctx.f.a in mem;
      mem := mem[addr := Node(0, 0, parent, which, 0, weight, weight, d)];
      SetPlaceholder(parent, which, addr);
      assert HoleSet(old(mem), mem, old(root), root, ctx, {addr}, addr);
      NewLeafAt(old(mem), mem, old(root), root, ctx, addr, mem[addr]);
    }

    /** `node_create`: the slab allocator hands out any address that is not in use. */
    method NodeCreate() returns (addr: nat)
      ensures addr != 0 && addr !in mem
    {
      FreeAddress(mem.Keys);
      addr :| addr != 0 && addr !in mem.Keys;
    }

    /** Adds an element after everything lower than it and before everything else. */
    method Put(d: D, weight: nat) returns (addr: nat)
      requires Valid()
      modifies this
      ensures Valid() && Inserted(lower, old(Flat(tree)), Flat(tree), d, weight)
      ensures addr !in old(Addrs(tree)) && Addrs(tree) == old(Addrs(tree)) + {addr}
    {
      var parent, which;
      ghost var ctx;
      parent, which, ctx := FindPlaceFor(d);
      addr := NodeCreate();
      ghost var t := Bin(addr, weight, d, Nil, Nil);
      InMemory(mem, root, tree, 0, ROOT);
      PutBalanced(tree, ctx, t);
      PutOrdered(lower, tree, ctx, t);
      UpAddrs(ctx, t);
      LinkNew(d, weight, addr, parent, which, ctx);
      BalanceUpwards(addr, ctx, t, FrameLvl(ctx, 0));
      tree := Up(ctx, t);
    }

    // ---------- find_node ----------

    method FindNode(d: D) returns (node: nat, ghost ctx: Ctx<D>, ghost t: Tree<D>)
      requires Valid()
      ensures At(mem, root, ctx, t) && Plug(ctx, t) == tree && node == Root(t) && FindPlace(lower, ctx, t, d)
      ensures t.Bin? ==> Equal(lower, t.d, d)
    {
      node := root;
      ctx, t := Here, tree;
      while node != 0
        invariant At(mem, root, ctx, t) && node == Root(t) && Plug(ctx, t) == tree && FindPlace(lower, ctx, t, d)
        decreases t
      {
        AtLoose(mem, root, ctx, t);
        ChildLevels(mem, root, ctx, t);
        if lower(mem[node].data, d) {
          GoRight(mem, root, ctx, t);
          StepRight(lower, ctx, t, RightFrame(t), d);
          ctx, t := Inside(RightFrame(t), ctx), t.r;
          node := mem[node].right;
        } else {
          if !lower(d, mem[node].data) { break; }
          GoLeft(mem, root, ctx, t);
          StepLeft(lower, ctx, t, LeftFrame(t), d);
          ctx, t := Inside(LeftFrame(t), ctx), t.l;
          node := mem[node].left;
        }
      }
    }

    /** `wre_find`: the data of an element equal to `d`, none exactly if there is none. */
    method Find(d: D) returns (found: Option<D>)
      requires Valid()
      ensures found.None? <==> forall i | 0 <= i < |Flat(tree)| :: !Equal(lower, Flat(tree)[i].0, d)
      ensures found.Some? ==>
        Equal(lower, found.value, d) && exists i :: 0 <= i < |Flat(tree)| && Flat(tree)[i].0 == found.value
    {
      var c;
      ghost var ctx, t;
      c, ctx, t := FindNode(d);
      if c == 0 {
        NotThere(lower, tree, ctx, d);
        return None;
      }
      IsThere(tree, ctx, t, Flat(tree));
      found := Some(mem[c].data);
    }

    // ---------- wre_remove ----------

    /** Recomputes the node from which balancing starts, and balances from it. */
    method SettleFrom(balanced: nat, ghost ctx: Ctx<D>, ghost t: Tree<D>, ghost was: nat)
      requires LooseAt(mem, root, ctx, t) && t.Bin? && balanced == t.a && Good(t) && Sibs(ctx) &&
        Ready(ctx, Lvl(t), was)
      modifies this
      ensures At(mem, root, Here, Up(ctx, t))
    {
      ChildLevels(mem, root, ctx, t);
      RefreshAt(mem, root, ctx, t);
      UpdateNode(balanced);
      BalanceUpwards(balanced, ctx, t, was);
    }

    /** The same, from where a subtree lost a level. */
    method SettlePlace(balanced: nat, ghost place: Ctx<D>, ghost x: Tree<D>)
      requires At(mem, root, place, x) && place.Inside? && Good(x) && Sibs(place) && Settled(place, 1 + Lvl(x)) &&
        balanced == StartNode(place, x)
      modifies this
      ensures At(mem, root, Here, Up(place, x))
    {
      ghost var start, from, was := StartsAt(mem, root, place, x);
      SettleFrom(balanced, start, from, was);
    }

    /** A node without children. */
    method RemoveLeaf(c: nat, ghost ctx: Ctx<D>, ghost t: Tree<D>)
      requires At(mem, root, ctx, t) && t.Bin? && t.l.Nil? && t.r.Nil? && c == t.a && Sibs(ctx) && Settled(ctx, 1)
      modifies this
      ensures At(mem, root, Here, Up(ctx, Nil))
    {
      var par, which := mem[c].parent, mem[c].which;
      var balanced := 0;
      if ctx.Inside? { HoleLinks(mem, root, ctx, t); }
      match which {
        case LEFT =>
          balanced := if mem[par].right != 0 then mem[par].right else par;
          mem := mem[par := mem[par].(left := 0)];
        case RIGHT =>
          balanced := if mem[par].left != 0 then mem[par].left else par;
          mem := mem[par := mem[par].(right := 0)];
        case ROOT =>
          root := 0;
      }
      HoleAt(old(mem), mem, old(root), root, ctx, t);
      if balanced != 0 {
        SettlePlace(balanced, ctx, Nil);
      }
    }

    /** Puts `rep` in the place of `c`. */
    method MoveInto(rep: nat, c: nat)
      requires rep in mem && c in mem && rep != c && rep != 0
      requires var n := mem[c];
        && (n.left != 0 ==> n.left in mem && n.left != rep && n.left != c)
        && (n.right != 0 ==> n.right in mem && n.right != rep && n.right != c)
        && (n.left != 0 ==> n.left != n.right)
        && (n.which != ROOT ==>
          n.parent in mem && n.parent != rep && n.parent != c && !(n.left != 0 && n.parent == n.left) &&
          !(n.right != 0 && n.parent == n.right))
      modifies this`mem, this`root
      ensures Moved(old(mem), mem, old(root), root, rep, c)
    {
      var n := mem[c];
      mem := mem[rep := mem[rep].(parent := n.parent, which := n.which)];
      mem := mem[rep := mem[rep].(right := n.right)];
      if n.right != 0 { mem := mem[n.right := mem[n.right].(parent := rep)]; }
      mem := mem[rep := mem[rep].(left := n.left)];
      if n.left != 0 { mem := mem[n.left := mem[n.left].(parent := rep)]; }
      SetPlaceholder(n.parent, n.which, rep);
    }

    /** A node with one child, which is a leaf. */
    method RemoveOverLeaf(c: nat, ghost ctx: Ctx<D>, ghost t: Tree<D>, ghost r: Tree<D>)
      requires At(mem, root, ctx, t) && t.Bin? && c == t.a && Good(t) && Sibs(ctx) && Settled(ctx, Lvl(t))
      requires r.Bin? && ((t.l.Nil? && t.r == r) || (t.r.Nil? && t.l == r))
      modifies this
      ensures At(mem, root, Here, Up(ctx, r))
    {
      OnlyChildLeaf(ctx, t, r);
      OnlyChildPieces(mem, root, ctx, t, r);
      var rep := 0;
      if mem[c].left == 0 {
        rep := mem[c].right;
        mem := mem[c := mem[c].(right := 0)];
      } else {
        rep := mem[c].left;
        mem := mem[c := mem[c].(left := 0)];
      }
      ghost var mem1 := mem;
      assert mem1 == old(mem)[c := old(mem)[c].(left := 0, right := 0)];
      MoveInto(rep, c);
      OnlyChildMoved(old(mem), mem1, mem, old(root), root, ctx, t, r);
      SettleFrom(rep, ctx, r, FrameLvl(ctx, 2));
    }

    /** The next higher node: right once, then left to the end. */
    method FindReplacer(c: nat, ghost ctx: Ctx<D>, ghost t: Tree<D>)
        returns (rep: nat, ghost path: Ctx<D>, ghost u: Tree<D>)
      requires At(mem, root, ctx, t) && t.Bin? && t.r.Bin? && c == t.a
      ensures u.Bin? && u.l.Nil? && rep == u.a && AllLeft(path)
      ensures At(mem, root, Join(path, Inside(RightFrame(t), ctx)), u) &&
        Plug(Join(path, Inside(RightFrame(t), ctx)), u) == Plug(ctx, t)
    {
      AtLoose(mem, root, ctx, t);
      GoRight(mem, root, ctx, t);
      ghost var base := Inside(RightFrame(t), ctx);
      rep := mem[c].right;
      path, u := Here, t.r;
      SubRoot(mem, mem[c].right, t.r, c, RIGHT);
      while mem[rep].left != 0
        invariant At(mem, root, Join(path, base), u) && u.Bin? && rep == u.a && AllLeft(path) &&
          Plug(Join(path, base), u) == Plug(ctx, t)
        decreases u
      {
        ghost var here := Join(path, base);
        AtLoose(mem, root, here, u);
        GoLeft(mem, root, here, u);
        SubRoot(mem, mem[rep].left, u.l, rep, LEFT);
        rep := mem[rep].left;
        path, u := Inside(LeftFrame(u), path), u.l;
        assert Join(path, base) == Inside(path.f, here);
      }
      SubRoot(mem, mem[rep].left, u.l, rep, LEFT);
    }

    /** Takes the replacer out of the structure, its right subtree in its place; says where balancing starts. */
    method Detach(rep: nat, c: nat, ghost place: Ctx<D>, ghost u: Tree<D>) returns (balanced: nat)
      requires At(mem, root, place, u) && place.Inside? && (place.f.side == RIGHT ==> place.f.a == c)
      requires u.Bin? && u.l.Nil? && rep == u.a
      modifies this`mem
      ensures At(mem, root, place, u.r) && rep in mem && mem[rep] == old(mem)[rep] && balanced == StartNode(place, u.r)
    {
      ReplacerPieces(mem, root, place, u);
      HoleLinks(mem, root, place, u);
      var par, which, right := mem[rep].parent, mem[rep].which, mem[rep].right;
      if which == LEFT {
        mem := mem[par := mem[par].(left := right)];
      } else {
        mem := mem[par := mem[par].(right := right)];
        mem := mem[c := mem[c].(right := right)];
      }
      if right != 0 {
        mem := mem[right := mem[right].(parent := par, which := which)];
      }
      assert place.f.a in CAddrs(place);
      DetachedAt(old(mem), mem, root, place, u);
      HoleLinks(mem, root, place, u.r);
      balanced :=
        if right != 0 then right
        else if mem[par].right != 0 then mem[par].right
        else if mem[par].left != 0 then mem[par].left
        else par;
    }

    /** Puts the detached node `rep` in the place of the spine node `c`. */
    method Replace(rep: nat, c: nat, ghost path: Ctx<D>, ghost f: Frame<D>, ghost g: Frame<D>, ghost ctx: Ctx<D>,
        ghost x: Tree<D>)
      requires At(mem, root, Join(path, Inside(f, ctx)), x) && f.side == RIGHT && c == f.a
      requires rep in mem && rep !in CAddrs(Join(path, Inside(f, ctx))) && rep !in Addrs(x) && rep != 0
      requires g == Frame(rep, mem[rep].ownWeight, mem[rep].data, RIGHT, f.sib)
      modifies this`mem, this`root
      ensures At(mem, root, Join(path, Inside(g, ctx)), x)
    {
      SpinePieces(mem, root, path, f, ctx, x);
      JoinApart(path, Inside(f, ctx));
      EntryBelow(path, Root(x));
      assert (f.sib.Bin? ==> f.sib.a in Addrs(f.sib)) && (x.Bin? ==> x.a in Addrs(x));
      MoveInto(rep, c);
      MovedAt(old(mem), mem, old(root), root, path, f, ctx, x, rep);
    }

    /** The replacer `u` out of its place and into that of `c`. */
    method SwapIn(rep: nat, c: nat, ghost path: Ctx<D>, ghost f: Frame<D>, ghost g: Frame<D>, ghost ctx: Ctx<D>,
        ghost u: Tree<D>) returns (balanced: nat)
      requires At(mem, root, Join(path, Inside(f, ctx)), u) && AllLeft(path) && f.side == RIGHT && c == f.a
      requires u.Bin? && u.l.Nil? && rep == u.a && g == Frame(u.a, u.w, u.d, RIGHT, f.sib) && f.sib.Bin?
      modifies this`mem, this`root
      ensures var place := Join(path, Inside(g, ctx));
        place.Inside? && At(mem, root, place, u.r) && balanced == StartNode(place, u.r)
    {
      ghost var was := Join(path, Inside(f, ctx));
      PathFrame(path, f, ctx);
      PathFrame(path, g, ctx);
      ReplacerPieces(mem, root, was, u);
      balanced := Detach(rep, c, was, u);
      Replace(rep, c, path, f, g, ctx, u.r);
    }

    /** The replacer in place of `c`, and the tree balanced again. */
    method ReplaceBy(rep: nat, c: nat, ghost path: Ctx<D>, ghost ctx: Ctx<D>, ghost t: Tree<D>, ghost u: Tree<D>,
        ghost g: Frame<D>)
      requires t.Bin? && t.l.Bin? && c == t.a && AllLeft(path) &&
        At(mem, root, Join(path, Inside(RightFrame(t), ctx)), u)
      requires u.Bin? && u.l.Nil? && rep == u.a && g == Frame(u.a, u.w, u.d, RIGHT, t.l)
      requires var place := Join(path, Inside(g, ctx)); Good(u.r) && Sibs(place) && Settled(place, 1 + Lvl(u.r))
      modifies this
      ensures At(mem, root, Here, Up(Join(path, Inside(g, ctx)), u.r))
    {
      var balanced := SwapIn(rep, c, path, RightFrame(t), g, ctx, u);
      SettlePlace(balanced, Join(path, Inside(g, ctx)), u.r);
    }

    /** A node with two children: the next higher node takes its place. */
    method RemoveInner(c: nat, ghost ctx: Ctx<D>, ghost t: Tree<D>) returns (ghost after: Tree<D>)
      requires At(mem, root, ctx, t) && t.Bin? && t.l.Bin? && t.r.Bin? && c == t.a && Good(Plug(ctx, t))
      modifies this
      ensures At(mem, root, Here, after) && Good(after) && Addrs(after) == Addrs(Plug(ctx, t)) - {c}
      ensures Flat(after) == (Before(ctx) + Flat(t.l)) + (Flat(t.r) + After(ctx))
    {
      var rep;
      ghost var path, u;
      rep, path, u := FindReplacer(c, ctx, t);
      ghost var g := Frame(u.a, u.w, u.d, RIGHT, t.l);
      InnerGone(path, ctx, t, u, g);
      ReplaceBy(rep, c, path, ctx, t, u, g);
      after := Up(Join(path, Inside(g, ctx)), u.r);
    }

    /** A node with at most one child. */
    method RemoveOuter(c: nat, ghost ctx: Ctx<D>, ghost t: Tree<D>, ghost r: Tree<D>)
      requires At(mem, root, ctx, t) && t.Bin? && c == t.a && Good(Plug(ctx, t)) &&
        ((t.l.Nil? && t.r == r) || (t.r.Nil? && t.l == r))
      modifies this
      ensures At(mem, root, Here, Up(ctx, r))
    {
      GoodSettled(ctx, t);
      AtLoose(mem, root, ctx, t);
      ChildLevels(mem, root, ctx, t);
      if mem[c].left == 0 && mem[c].right == 0 {
        RemoveLeaf(c, ctx, t);
      } else {
        RemoveOverLeaf(c, ctx, t, r);
      }
    }

    /** Takes the node `c` out, whatever children it has. */
    method RemoveNode(c: nat, ghost ctx: Ctx<D>, ghost t: Tree<D>) returns (ghost after: Tree<D>)
      requires At(mem, root, ctx, t) && t.Bin? && c == t.a && Good(Plug(ctx, t))
      modifies this
      ensures At(mem, root, Here, after) && Good(after) && Addrs(after) == Addrs(Plug(ctx, t)) - {c}
      ensures Flat(after) == (Before(ctx) + Flat(t.l)) + (Flat(t.r) + After(ctx))
    {
      AtLoose(mem, root, ctx, t);
      ChildLevels(mem, root, ctx, t);
      if mem[c].left == 0 || mem[c].right == 0 {
        ghost var r := if t.l.Nil? then t.r else t.l;
        OuterGone(ctx, t, r);
        OuterAddrs(ctx, t, r);
        RemoveOuter(c, ctx, t, r);
        after := Up(ctx, r);
      } else {
        after := RemoveInner(c, ctx, t);
      }
    }

    /** Takes out an element equal to `d` and gives it back, or nothing if there is none; its node is freed. */
    method Remove(d: D) returns (found: Option<D>)
      requires Valid()
      modifies this
      ensures Valid()
      ensures found.None? ==> tree == old(tree) && forall i | 0 <= i < |Flat(tree)| :: !Equal(lower, Flat(tree)[i].0, d)
      ensures found.Some? ==> Removed(lower, old(Flat(tree)), Flat(tree), d, found.value)
      ensures found.Some? ==> exists c :: c in old(Addrs(tree)) && Addrs(tree) == old(Addrs(tree)) - {c} && c !in mem
    {
      var c;
      ghost var ctx, t;
      c, ctx, t := FindNode(d);
      if c == 0 {
        NotThere(lower, tree, ctx, d);
        return None;
      }
      WholeFlat(ctx, t);
      found := Some(mem[c].data);
      ghost var after := RemoveNode(c, ctx, t);
      RemoveSorted(lower, Before(ctx) + Flat(t.l), (t.d, t.w), Flat(t.r) + After(ctx), d);
      NodeFreed(mem, root, ctx, t, after);
      mem := mem - {c};
      tree := after;
    }

    // ---------- wre_calculate_subtree_size ----------

    /** Recomputes a subtree's weight; every assertion of the original on the way holds. */
    method SubtreeSize(node: nat, ghost ctx: Ctx<D>, ghost t: Tree<D>) returns (size: nat)
      requires At(mem, root, ctx, t) && Good(t) && node == Root(t)
      ensures size == Weight(t)
      decreases t
    {
      size := 0;
      if node != 0 {
        AtLoose(mem, root, ctx, t);
        ChildLevels(mem, root, ctx, t);
        GoLeft(mem, root, ctx, t);
        GoRight(mem, root, ctx, t);
        var n := mem[node];
        var left := SubtreeSize(n.left, Inside(LeftFrame(t), ctx), t.l);
        var right := SubtreeSize(n.right, Inside(RightFrame(t), ctx), t.r);
        size := left + right + n.ownWeight;
        assert size == n.subtreeWeight;
        var leftHeight, rightHeight := 0, 0;
        if n.left != 0 {
          assert mem[n.left].which == LEFT && mem[n.left].parent == node;
          leftHeight := mem[n.left].height + 1;
        }
        if n.right != 0 {
          assert mem[n.right].which == RIGHT && mem[n.right].parent == node;
          rightHeight := mem[n.right].height + 1;
        }
        assert Max(leftHeight, rightHeight) == n.height;
        assert Gap(leftHeight, rightHeight) < 2;
      }
    }

    // ---------- wre_find_weighted_nodes_internal ----------

    /** One turn of the descent, at a node whose subtree has weight: on to a child that holds the point, or found. */
    method WeighNode(node: nat, here: real, ghost ctx: Ctx<D>, ghost t: Tree<D>, ghost point: real)
      returns (next: nat, there: real, found: bool, share: Option<real>, ghost ctx': Ctx<D>, ghost t': Tree<D>,
        ghost k: nat)
      requires Descending(mem, root, tree, ctx, t, here, point) && node == t.a
      ensures !found ==>
        Descending(mem, root, tree, ctx', t', there, point) && next == t'.a && next != 0 && t' < t && share == None
      ensures found ==> ctx' == ctx && t' == t && next == node
      ensures found ==>
        k < |Flat(tree)| && Flat(tree)[k] == (t.d, t.w) && Covers(Flat(tree), k, point) && (share.Some? <==> t.w > 0)
      ensures share.Some? ==> found && Share(Flat(tree), k, point, share.value)
    {
      NodeWeights(mem, root, ctx, t);
      RealWeights(ctx, t);
      var n := mem[node];
      var leftWeight := if n.left != 0 then mem[n.left].subtreeWeight else 0;
      ghost var before := Total(Before(ctx)) as real;
      next, there, found, share, ctx', t', k := node, here, false, None, ctx, t, 0;
      var turn := Weigh(here, leftWeight as real, n.ownWeight as real, n.subtreeWeight as real, before, point);
      match turn {
        case LeftTurn(r) =>
          DescendLeft(mem, root, tree, ctx, t, here, point, r);
          ctx', t' := Inside(LeftFrame(t), ctx), t.l;
          next, there := n.left, r;
        case RightTurn(r) =>
          ghost var m := leftWeight as real + n.ownWeight as real;
          DescendRight(mem, root, tree, ctx, t, here, point, r, n.subtreeWeight as real - m, before + m);
          ctx', t' := Inside(RightFrame(t), ctx), t.r;
          next, there := n.right, r;
        case Stop(part) =>
          found, share := true, Some(part);
          k := |Before(ctx)| + |Flat(t.l)|;
          StopHere(tree, ctx, t, point, k, part, n.ownWeight as real, before + leftWeight as real);
        case StopAtZero =>
          found := true;
          k := |Before(ctx)| + |Flat(t.l)|;
          DescendEnd(tree, ctx, t, point, k, before + leftWeight as real);
      }
    }

    /**
      The node that covers the point `ratio` of the whole weight, and how far into its own weight the
      point lies. Where the whole weight is zero it is the root.
     */
    method FindWeighted(ratio: real, ghost point: real) returns (best: nat, share: Option<real>, ghost k: nat)
      requires At(mem, root, Here, tree) && 0.0 <= ratio <= 1.0 && point == ratio * Total(Flat(tree)) as real
      ensures tree.Nil? <==> best == 0
      ensures tree.Bin? ==> best in mem && k < |Flat(tree)| && Flat(tree)[k] == (mem[best].data, mem[best].ownWeight)
      ensures Total(Flat(tree)) > 0 ==> tree.Bin? && Covers(Flat(tree), k, point)
      ensures Total(Flat(tree)) == 0 ==> best == root
      ensures share.Some? <==> Total(Flat(tree)) > 0 && Flat(tree)[k].1 > 0
      ensures share.Some? ==> Share(Flat(tree), k, point, share.value)
    {
      best, share, k := root, None, 0;
      var node, here, found := root, ratio, false;
      ghost var ctx, t := Here, tree;
      WeightFlat(tree);
      while node != 0 && !found
        invariant !found ==> At(mem, root, ctx, t) && node == Root(t) && Plug(ctx, t) == tree && share == None
        invariant !found && Weight(tree) > 0 ==> Descending(mem, root, tree, ctx, t, here, point)
        invariant Weight(tree) == 0 ==> !found && Weight(t) == 0 && best == root
        invariant found ==>
          best in mem && best != 0 && k < |Flat(tree)| && Flat(tree)[k] == (mem[best].data, mem[best].ownWeight) &&
          Covers(Flat(tree), k, point)
        invariant found ==>
          (share.Some? <==> Flat(tree)[k].1 > 0) && (share.Some? ==> Share(Flat(tree), k, point, share.value))
        decreases t, !found
      {
        NodeWeights(mem, root, ctx, t);
        if mem[node].subtreeWeight == 0 {
          ctx, t := Inside(RightFrame(t), ctx), t.r;
          node := mem[node].right;
        } else {
          best := node;
          node, here, found, share, ctx, t, k := WeighNode(node, here, ctx, t, point);
        }
      }
      if !found && tree.Bin? {
        NodeIndex(tree, Here, tree, |Flat(tree.l)|);
        k := |Flat(tree.l)|;
        NodeWeights(mem, root, Here, tree);
      }
    }
  }
}
