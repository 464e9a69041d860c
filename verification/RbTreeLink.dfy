/** Putting a node into the tree: `rb_link_node`, the walk down to the place of a new
    node, and `rb_insert_color`. */
module RbTreeLink {
  import opened RbTreeModel
  import opened RbTreeHeap
  import opened RbTreeInsert

  // --- Renumbering: place `x` is taken by a new node ---------------------------------------

  ghost function Gr(x: int, q: int): int { if q >= x then q + 1 else q }

  ghost function GrCell(x: int, c: Cell): Cell {
    Cell(Gr(x, c.left), Gr(x, c.right), Gr(x, c.parent), c.color)
  }

  /** `m'` is `m` with a cell put in at place `x`. */
  ghost predicate IsGrown(x: int, m: Mem, m': Mem) {
    && 0 <= x <= |m| && |m'| == |m| + 1
    && forall j {:trigger m[j]} :: InMem(m, j) ==> m'[Gr(x, j)] == GrCell(x, m[j])
  }

  ghost function GrTree(x: int, t: Tree): Tree {
    match t
    case Leaf => Leaf
    case T(l, c, i, r) => T(GrTree(x, l), c, Gr(x, i), GrTree(x, r))
  }

  ghost function GrCtx(x: int, k: Ctx): Ctx {
    match k
    case Top => Top
    case In(d, c, i, sib, up) => In(d, c, Gr(x, i), GrTree(x, sib), GrCtx(x, up))
  }

  lemma {:induction false} GrShape(x: int, t: Tree)
    ensures var t' := GrTree(x, t);
      && Size(t') == Size(t) && Bh(t') == Bh(t) && Col(t') == Col(t)
      && (Even(t') <==> Even(t)) && (NoRedRed(t') <==> NoRedRed(t))
  {
    if t.T? { GrShape(x, t.l); GrShape(x, t.r); }
  }

  lemma {:induction false} GrBalanced(x: int, k: Ctx, h: nat, c: Color)
    ensures EvenCtx(GrCtx(x, k), h) <==> EvenCtx(k, h)
    ensures NoRedRedCtx(GrCtx(x, k), c) <==> NoRedRedCtx(k, c)
    decreases k
  {
    if k.In? { GrShape(x, k.sib); GrBalanced(x, k.up, h + B(k.c), k.c); }
  }

  lemma {:induction false} GrRootOf(x: int, k: Ctx, h: int)
    ensures RootOf(GrCtx(x, k), Gr(x, h)) == Gr(x, RootOf(k, h))
    decreases k
  {
    if k.In? { GrRootOf(x, k.up, k.i); }
  }

  /** A subtree before or after the new place. */
  lemma {:induction false} GrBefore(x: int, m: Mem, m': Mem, t: Tree, p: int, lo: int, hi: int)
    requires IsGrown(x, m, m') && Linked(m, t, p, lo, hi) && hi <= x
    ensures Linked(m', GrTree(x, t), Gr(x, p), lo, hi)
    decreases t
  {
    if t.T? {
      GrBefore(x, m, m', t.l, t.i, lo, t.i);
      GrBefore(x, m, m', t.r, t.i, t.i + 1, hi);
    }
  }

  lemma {:induction false} GrAfter(x: int, m: Mem, m': Mem, t: Tree, p: int, lo: int, hi: int)
    requires IsGrown(x, m, m') && Linked(m, t, p, lo, hi) && x <= lo
    ensures Linked(m', GrTree(x, t), Gr(x, p), lo + 1, hi + 1)
    decreases t
  {
    if t.T? {
      GrAfter(x, m, m', t.l, t.i, lo, t.i);
      GrAfter(x, m, m', t.r, t.i, t.i + 1, hi);
    }
  }

  lemma {:induction false} GrLinkedCtx(x: int, m: Mem, m': Mem, k: Ctx, hole: int, lo: int, hi: int)
    requires IsGrown(x, m, m') && LinkedCtx(m, k, hole, lo, hi) && lo <= x <= hi
    ensures LinkedCtx(m', GrCtx(x, k), Gr(x, hole), lo, hi + 1)
    decreases k
  {
    if k.In? {
      GrLinkedCtx(x, m, m', k.up, k.i, UpLo(k, lo), UpHi(k, hi));
      if k.side == Left { GrStepLeft(x, m, m', k, hole, lo, hi); } else { GrStepRight(x, m, m', k, hole, lo, hi); }
    }
  }

  lemma GrStepLeft(x: int, m: Mem, m': Mem, k: Ctx, hole: int, lo: int, hi: int)
    requires k.In? && k.side == Left && lo <= x <= hi
    ensures IsGrown(x, m, m') && LinkedCtx(m, k, hole, lo, hi)
            && LinkedCtx(m', GrCtx(x, k.up), Gr(x, k.i), UpLo(k, lo), UpHi(k, hi) + 1) ==>
            LinkedCtx(m', GrCtx(x, k), Gr(x, hole), lo, hi + 1)
  {
    if IsGrown(x, m, m') && LinkedCtx(m, k, hole, lo, hi) {
      var k', n := GrCtx(x, k), Size(k.sib);
      GrAfter(x, m, m', k.sib, hi, hi + 1, hi + 1 + n);
      GrShape(x, k.sib);
      assert UpLo(k, lo) == lo && UpHi(k, hi) == hi + 1 + n && Gr(x, hi) == hi + 1;
      assert SibLo(k', lo, hi + 1) == hi + 2 && UpLo(k', lo) == lo && UpHi(k', hi + 1) == hi + 2 + n;
      assert m'[hi + 1] == GrCell(x, m[hi]);
    }
  }

  lemma GrStepRight(x: int, m: Mem, m': Mem, k: Ctx, hole: int, lo: int, hi: int)
    requires k.In? && k.side == Right && lo <= x <= hi
    ensures IsGrown(x, m, m') && LinkedCtx(m, k, hole, lo, hi)
            && LinkedCtx(m', GrCtx(x, k.up), Gr(x, k.i), UpLo(k, lo), UpHi(k, hi) + 1) ==>
            LinkedCtx(m', GrCtx(x, k), Gr(x, hole), lo, hi + 1)
  {
    if IsGrown(x, m, m') && LinkedCtx(m, k, hole, lo, hi) {
      var k', n := GrCtx(x, k), Size(k.sib);
      GrBefore(x, m, m', k.sib, lo - 1, lo - 1 - n, lo - 1);
      GrShape(x, k.sib);
      assert UpLo(k, lo) == lo - 1 - n && UpHi(k, hi) == hi && Gr(x, lo - 1) == lo - 1;
      assert SibLo(k', lo, hi + 1) == lo - 1 - n == UpLo(k', lo) && UpHi(k', hi + 1) == hi + 1;
      assert m'[lo - 1] == GrCell(x, m[lo - 1]);
    }
  }

  // --- rb_link_node ------------------------------------------------------------------------

  ghost function With(s: seq<Node>, x: int, node: Node): seq<Node>
    requires 0 <= x <= |s|
  {
    s[..x] + [node] + s[x..]
  }

  lemma NdWith(s: seq<Node>, x: int, node: Node, q: int)
    requires 0 <= x <= |s|
    ensures Nd(With(s, x, node), Gr(x, q)) == Nd(s, q)
  {
  }

  ghost function GrMem(x: int, m: Mem, c: Cell): (m': Mem)
    requires 0 <= x <= |m|
    ensures IsGrown(x, m, m') && m'[x] == c
  {
    seq(|m| + 1, j requires 0 <= j < |m| + 1 => if j == x then c else GrCell(x, m[if j < x then j else j - 1]))
  }

  lemma GrShows(s: seq<Node>, m: Mem, m1: Mem, x: int, node: Node)
    requires Shows(s, m) && node !in s && IsGrown(x, m, m1)
    requires node.left == null && node.right == null && node.parent == Nd(With(s, x, node), m1[x].parent)
    requires m1[x].left == NIL && m1[x].right == NIL && m1[x].color == node.color
    ensures Shows(With(s, x, node), m1)
  {
    var s' := With(s, x, node);
    forall j {:trigger m1[j]} | 0 <= j < |s'|
      ensures && s'[j].left == Nd(s', m1[j].left) && s'[j].right == Nd(s', m1[j].right)
              && s'[j].parent == Nd(s', m1[j].parent) && s'[j].color == m1[j].color
    {
      if j != x {
        var j0 := if j < x then j else j - 1;
        assert Gr(x, j0) == j && s'[j] == s[j0] && m1[j] == GrCell(x, m[j0]);
        NdWith(s, x, node, m[j0].left);
        NdWith(s, x, node, m[j0].right);
        NdWith(s, x, node, m[j0].parent);
      }
    }
  }

  lemma LinkZipped(m: Mem, m1: Mem, k: Ctx, x: int)
    requires Zipped(m, k, Leaf, x, x) && IsGrown(x, m, m1) && m1[x] == Cell(NIL, NIL, Owner(GrCtx(x, k)), Red)
    ensures Zipped(SetHole(m1, GrCtx(x, k), x), GrCtx(x, k), T(Leaf, Red, x, Leaf), x, x + 1)
  {
    var k' := GrCtx(x, k);
    GrLinkedCtx(x, m, m1, k, NIL, x, x);
    Rehang(m1, SetHole(m1, k', x), k', NIL, x, x, x + 1);
  }

  lemma LinkBalance(k: Ctx, x: int)
    ensures Balanced(k, Leaf) ==> IsRb(Plug(GrCtx(x, k), Leaf))
  {
    GrBalanced(x, k, 0, Black);
    RbPlug(GrCtx(x, k), Leaf);
  }

  /** What linking at a leaf needs to know, and what it achieves. */
  ghost predicate LinkPlan(m: Mem, m1: Mem, k: Ctx, k': Ctx, x: int) {
    && IsGrown(x, m, m1) && m1[x] == Cell(NIL, NIL, Owner(k'), Red)
    && Owner(k') == Gr(x, Owner(k)) && k'.In? == k.In? && (k.In? ==> k'.side == k.side && InMem(m, k.i))
    && Zipped(SetHole(m1, k', x), k', T(Leaf, Red, x, Leaf), x, x + 1)
    && RootOf(k', x) == (if k.Top? then x else Gr(x, RootOf(k, NIL)))
    && (Balanced(k, Leaf) ==> IsRb(Plug(k', Leaf)))
  }

  lemma LinkPlanned(m: Mem, k: Ctx, x: int) returns (m1: Mem, k': Ctx)
    requires Zipped(m, k, Leaf, x, x) && 0 <= x <= |m|
    ensures LinkPlan(m, m1, k, k', x)
  {
    k' := GrCtx(x, k);
    m1 := GrMem(x, m, Cell(NIL, NIL, Owner(k'), Red));
    LinkZipped(m, m1, k, x);
    LinkBalance(k, x);
    GrRootOf(x, k, NIL);
    assert k.In? ==> RootOf(k', x) == RootOf(k', Gr(x, NIL));
  }

  /** `rb_link_node`: hangs `node` as a red leaf below `parent`, on the left or right. */
  method LinkNode(root: RbRoot, node: Node, parent: Node?, left: bool, ghost k: Ctx, ghost x: int, ghost m1: Mem,
                  ghost k': Ctx)
    requires Shows(root.order, root.mem) && root.node == Nd(root.order, RootOf(k, NIL)) && node !in root.order
    requires LinkPlan(root.mem, m1, k, k', x)
    requires parent == Nd(root.order, Owner(k)) && (k.In? ==> (left <==> k.side == Left))
    modifies root`node, root`mem, root`order, node, root.order
    ensures root.order == old(With(root.order, x, node)) && At(root, k', T(Leaf, Red, x, Leaf), x, x + 1)
  {
    node.parent, node.color := parent, Red;
    node.left, node.right := null, null;
    NdWith(root.order, x, node, Owner(k));
    NdWith(root.order, x, node, RootOf(k, NIL));
    GrShows(root.order, root.mem, m1, x, node);
    root.order, root.mem := With(root.order, x, node), m1;
    assert parent == null <==> k.Top?;
    assert root.order[x] == node && (k.In? ==> root.node == Nd(root.order, RootOf(k', x)));
    if parent == null {
      root.node := node;
    } else if left {
      SetLeft(root, parent, node, k'.i, x);
    } else {
      SetRight(root, parent, node, k'.i, x);
    }
    assert root.mem == SetHole(m1, k', x);
  }

  // --- Insertion by comparison ------------------------------------------------------------------
  // The callers compare the new node with the nodes on the way down. `goes(a, b)` says that
  // `a` goes before `b`, that is, to the left of it.

  /** The order of the nodes agrees with the comparisons with `node`. */
  ghost predicate Splits(s: seq<Node>, node: Node, goes: (Node, Node) -> bool) {
    forall i, j :: 0 <= i < j < |s| && goes(node, s[i]) ==> goes(node, s[j])
  }

  /** The comparisons made so far put the new node at a place from `lo` to `hi`. */
  ghost predicate Between(s: seq<Node>, node: Node, goes: (Node, Node) -> bool, lo: int, hi: int) {
    && 0 <= lo <= hi <= |s|
    && (forall j :: 0 <= j < lo ==> !goes(node, s[j]))
    && forall j :: hi <= j < |s| ==> goes(node, s[j])
  }

  lemma Narrow(s: seq<Node>, node: Node, goes: (Node, Node) -> bool, lo: int, hi: int, i: int)
    requires Between(s, node, goes, lo, hi) && Splits(s, node, goes) && lo <= i < hi
    ensures if goes(node, s[i]) then Between(s, node, goes, lo, i) else Between(s, node, goes, i + 1, hi)
  {
  }

  /** The walk down has reached the subtree `t` of `tree`. */
  ghost predicate Descent(m: Mem, tree: Tree, k: Ctx, t: Tree, lo: int, hi: int) {
    Zipped(m, k, t, lo, hi) && RootOf(k, Root(t)) == Root(tree) && (IsRb(tree) ==> Balanced(k, t))
  }

  lemma DescendLeft(m: Mem, tree: Tree, k: Ctx, t: Tree, lo: int, hi: int)
    requires Descent(m, tree, k, t, lo, hi) && t.T?
    ensures Descent(m, tree, In(Left, t.c, t.i, t.r, k), t.l, lo, t.i) && lo <= t.i < hi && InMem(m, t.i)
    ensures m[t.i].left == Root(t.l) && (t.l.T? ==> InMem(m, t.l.i))
  {
    var k1 := In(Left, t.c, t.i, t.r, k);
    assert Around(k1, t.l) == t && DownLo(Left, t.i, lo) == lo && DownHi(Left, t.i, hi) == t.i;
    ZippedDown(m, k1, t.l, lo, hi);
  }

  lemma DescendRight(m: Mem, tree: Tree, k: Ctx, t: Tree, lo: int, hi: int)
    requires Descent(m, tree, k, t, lo, hi) && t.T?
    ensures Descent(m, tree, In(Right, t.c, t.i, t.l, k), t.r, t.i + 1, hi) && lo <= t.i < hi && InMem(m, t.i)
    ensures m[t.i].right == Root(t.r) && (t.r.T? ==> InMem(m, t.r.i))
  {
    var k1 := In(Right, t.c, t.i, t.l, k);
    assert Around(k1, t.r) == t && DownLo(Right, t.i, lo) == t.i + 1 && DownHi(Right, t.i, hi) == hi;
    ZippedDown(m, k1, t.r, lo, hi);
  }

  /** The loop shared by the callers: compare, then go left or right. */
  method FindPlace(root: RbRoot, node: Node, goes: (Node, Node) -> bool)
    returns (parent: Node?, left: bool, ghost k: Ctx, ghost x: int)
    requires root.Valid() && Splits(root.order, node, goes)
    ensures Descent(root.mem, root.tree, k, Leaf, x, x) && Between(root.order, node, goes, x, x)
    ensures parent == Nd(root.order, Owner(k)) && (k.In? ==> (left <==> k.side == Left))
  {
    parent, left := null, false;
    var here := root.node;
    k := Top;
    ghost var t, lo, hi := root.tree, 0, |root.order|;
    RbPlug(Top, root.tree);
    while here != null
      invariant Descent(root.mem, root.tree, k, t, lo, hi) && Between(root.order, node, goes, lo, hi)
      invariant here == Nd(root.order, Root(t)) && (here == null ==> t.Leaf?)
      invariant parent == Nd(root.order, Owner(k)) && (k.In? ==> (left <==> k.side == Left))
      decreases t
    {
      parent := here;
      if goes(node, here) {
        DescendLeft(root.mem, root.tree, k, t, lo, hi);
        Narrow(root.order, node, goes, lo, hi, t.i);
        here, left := here.left, true;
        k, t, hi := In(Left, t.c, t.i, t.r, k), t.l, t.i;
      } else {
        DescendRight(root.mem, root.tree, k, t, lo, hi);
        Narrow(root.order, node, goes, lo, hi, t.i);
        here, left := here.right, false;
        k, t, lo := In(Right, t.c, t.i, t.l, k), t.r, t.i + 1;
      }
    }
    x := lo;
  }

  method LinkInPlace(root: RbRoot, node: Node, goes: (Node, Node) -> bool) returns (ghost x: int, ghost k: Ctx)
    requires root.Valid() && IsRb(root.tree) && node !in root.order && Splits(root.order, node, goes)
    modifies root`node, root`mem, root`order, node, root.order
    ensures old(Between(root.order, node, goes, x, x)) && root.order == old(With(root.order, x, node))
    ensures At(root, k, T(Leaf, Red, x, Leaf), x, x + 1) && IsRb(Plug(k, Leaf))
  {
    ghost var k0, m1;
    var parent, left;
    parent, left, k0, x := FindPlace(root, node, goes);
    m1, k := LinkPlanned(root.mem, k0, x);
    LinkNode(root, node, parent, left, k0, x, m1, k);
  }

  lemma WithMembers(s: seq<Node>, x: int, node: Node)
    requires 0 <= x <= |s|
    ensures forall y :: y in With(s, x, node) <==> y == node || y in s
  {
    assert s == s[..x] + s[x..];
  }

  /** Links a new node where the comparisons put it and rebalances: the tree stays a
      red-black tree, and no other node moves. */
  method Insert(root: RbRoot, node: Node, goes: (Node, Node) -> bool) returns (ghost x: int)
    requires root.Valid() && IsRb(root.tree) && node !in root.order && Splits(root.order, node, goes)
    modifies root, node, root.order
    ensures old(Between(root.order, node, goes, x, x)) && root.order == old(With(root.order, x, node))
    ensures root.Valid() && IsRb(root.tree)
  {
    ghost var s := root.order;
    ghost var k;
    x, k := LinkInPlace(root, node, goes);
    WithMembers(s, x, node);
    InsertColor(root, node, k, x);
  }
}
