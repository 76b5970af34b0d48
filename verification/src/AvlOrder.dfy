/** Order of the elements: where a new one goes, and where one is looked for. */
module AvlOrder {
  import opened AvlTree

  /** What `is_lower` must be for the tree to make sense: a strict weak order. */
  ghost predicate StrictWeak<D(!new)>(lower: (D, D) -> bool) {
    && (forall x, y | lower(x, y) :: !lower(y, x))
    && (forall x, y, z | lower(x, z) :: lower(x, y) || lower(y, z))
  }

  ghost predicate Sorted<D>(lower: (D, D) -> bool, s: seq<(D, nat)>) {
    forall i, j | 0 <= i < j < |s| :: !lower(s[j].0, s[i].0)
  }

  ghost predicate AllLower<D>(lower: (D, D) -> bool, s: seq<(D, nat)>, d: D) {
    forall i | 0 <= i < |s| :: lower(s[i].0, d)
  }

  ghost predicate NoneLower<D>(lower: (D, D) -> bool, s: seq<(D, nat)>, d: D) {
    forall i | 0 <= i < |s| :: !lower(s[i].0, d)
  }

  ghost predicate AllHigher<D>(lower: (D, D) -> bool, s: seq<(D, nat)>, d: D) {
    forall i | 0 <= i < |s| :: lower(d, s[i].0)
  }

  /** `s'` is `s` with `(d, w)` put in after everything lower than `d` and before everything else. */
  ghost predicate Inserted<D>(lower: (D, D) -> bool, s: seq<(D, nat)>, s': seq<(D, nat)>, d: D, w: nat) {
    exists k :: 0 <= k <= |s| && InsertedAt(lower, s, s', d, w, k)
  }

  ghost predicate InsertedAt<D>(lower: (D, D) -> bool, s: seq<(D, nat)>, s': seq<(D, nat)>, d: D, w: nat, k: nat)
    requires k <= |s|
  {
    s' == s[..k] + [(d, w)] + s[k..] && AllLower(lower, s[..k], d) && NoneLower(lower, s[k..], d)
  }

  ghost predicate Equal<D>(lower: (D, D) -> bool, x: D, y: D) {
    !lower(x, y) && !lower(y, x)
  }

  /** `s'` is `s` without one element that equals `d`, namely `found`. */
  ghost predicate Removed<D>(lower: (D, D) -> bool, s: seq<(D, nat)>, s': seq<(D, nat)>, d: D, found: D) {
    exists k :: 0 <= k < |s| && RemovedAt(lower, s, s', d, found, k)
  }

  ghost predicate RemovedAt<D>(lower: (D, D) -> bool, s: seq<(D, nat)>, s': seq<(D, nat)>, d: D, found: D, k: nat)
    requires k < |s|
  {
    s' == s[..k] + s[k + 1..] && s[k].0 == found && Equal(lower, found, d)
  }

  lemma SortedParts<D>(lower: (D, D) -> bool, a: seq<(D, nat)>, b: seq<(D, nat)>, c: seq<(D, nat)>)
    requires Sorted(lower, a + b + c)
    ensures Sorted(lower, a) && Sorted(lower, b) && Sorted(lower, c)
    ensures forall i, j | 0 <= i < |a| && 0 <= j < |b| :: !lower(b[j].0, a[i].0)
    ensures forall i, j | 0 <= i < |b| && 0 <= j < |c| :: !lower(c[j].0, b[i].0)
    ensures forall i, j | 0 <= i < |a| && 0 <= j < |c| :: !lower(c[j].0, a[i].0)
  {
    var s := a + b + c;
    assert forall i | 0 <= i < |a| :: s[i] == a[i];
    assert forall i | 0 <= i < |b| :: s[|a| + i] == b[i];
    assert forall i | 0 <= i < |c| :: s[|a| + |b| + i] == c[i];
  }

  lemma SortedJoin<D>(lower: (D, D) -> bool, a: seq<(D, nat)>, b: seq<(D, nat)>, c: seq<(D, nat)>)
    requires Sorted(lower, a) && Sorted(lower, b) && Sorted(lower, c)
    requires forall i, j | 0 <= i < |a| && 0 <= j < |b| :: !lower(b[j].0, a[i].0)
    requires forall i, j | 0 <= i < |b| && 0 <= j < |c| :: !lower(c[j].0, b[i].0)
    requires forall i, j | 0 <= i < |a| && 0 <= j < |c| :: !lower(c[j].0, a[i].0)
    ensures Sorted(lower, a + b + c)
  {
    var s := a + b + c;
    forall i, j | 0 <= i < j < |s| ensures !lower(s[j].0, s[i].0) {
      if j < |a| {
      } else if j < |a| + |b| {
        if i >= |a| { assert s[i] == b[i - |a|]; }
        assert s[j] == b[j - |a|];
      } else {
        assert s[j] == c[j - |a| - |b|];
        if |a| <= i < |a| + |b| { assert s[i] == b[i - |a|]; }
        if |a| + |b| <= i { assert s[i] == c[i - |a| - |b|]; }
      }
    }
  }

  /** Going right at a node lower than `d`: its left side is lower too. */
  lemma StepRight<D(!new)>(lower: (D, D) -> bool, ctx: Ctx<D>, t: Tree<D>, f: Frame<D>, d: D)
    requires StrictWeak(lower) && t.Bin? && Sorted(lower, Flat(t)) && lower(t.d, d)
    requires f == Frame(t.a, t.w, t.d, RIGHT, t.l)
    ensures Sorted(lower, Flat(t.r))
    ensures AllLower(lower, Before(ctx), d) ==> AllLower(lower, Before(Inside(f, ctx)), d)
    ensures After(Inside(f, ctx)) == After(ctx)
  {
    SortedParts(lower, Flat(t.l), [(t.d, t.w)], Flat(t.r));
    var c := Inside(f, ctx);
    var l := Flat(t.l);
    forall i | 0 <= i < |l| ensures lower(l[i].0, d) {
      assert !lower([(t.d, t.w)][0].0, l[i].0);
    }
  }

  /** Going left at a node not lower than `d`: its right side is not lower either; above `d` it is all above. */
  lemma StepLeft<D(!new)>(lower: (D, D) -> bool, ctx: Ctx<D>, t: Tree<D>, f: Frame<D>, d: D)
    requires StrictWeak(lower) && t.Bin? && Sorted(lower, Flat(t)) && !lower(t.d, d)
    requires f == Frame(t.a, t.w, t.d, LEFT, t.r)
    ensures Sorted(lower, Flat(t.l))
    ensures NoneLower(lower, After(ctx), d) ==> NoneLower(lower, After(Inside(f, ctx)), d)
    ensures AllHigher(lower, After(ctx), d) && lower(d, t.d) ==> AllHigher(lower, After(Inside(f, ctx)), d)
    ensures Before(Inside(f, ctx)) == Before(ctx)
  {
    SortedParts(lower, Flat(t.l), [(t.d, t.w)], Flat(t.r));
    var c := Inside(f, ctx);
    var r := Flat(t.r);
    forall i | 0 <= i < |r| ensures !lower(r[i].0, d) && (lower(d, t.d) ==> lower(d, r[i].0)) {
      assert !lower(r[i].0, [(t.d, t.w)][0].0);
    }
    assert After(c) == [(t.d, t.w)] + r + After(ctx);
  }

  /** Putting an element between what is lower and what is not keeps the order. */
  lemma InsertSorted<D(!new)>(lower: (D, D) -> bool, a: seq<(D, nat)>, c: seq<(D, nat)>, d: D, w: nat)
    requires StrictWeak(lower) && Sorted(lower, a + c) && AllLower(lower, a, d) && NoneLower(lower, c, d)
    ensures Sorted(lower, a + [(d, w)] + c) && Inserted(lower, a + c, a + [(d, w)] + c, d, w)
  {
    assert a + [] + c == a + c;
    SortedParts(lower, a, [], c);
    SortedJoin(lower, a, [(d, w)], c);
    assert (a + c)[..|a|] == a && (a + c)[|a|..] == c;
    assert InsertedAt(lower, a + c, a + [(d, w)] + c, d, w, |a|);
  }

  lemma RemoveSorted<D>(lower: (D, D) -> bool, a: seq<(D, nat)>, e: (D, nat), c: seq<(D, nat)>, d: D)
    requires Sorted(lower, a + [e] + c) && Equal(lower, e.0, d)
    ensures Sorted(lower, a + c) && Removed(lower, a + [e] + c, a + c, d, e.0)
  {
    SortedParts(lower, a, [e], c);
    SortedJoin(lower, a, [], c);
    assert a + [] + c == a + c;
    var s := a + [e] + c;
    assert s[..|a|] == a && s[|a| + 1..] == c && s[|a|] == e;
    assert RemovedAt(lower, s, a + c, d, e.0, |a|);
  }
}
