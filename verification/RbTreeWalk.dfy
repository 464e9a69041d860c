/** Walking over a tree in order and in post-order, and replacing a node. */
module RbTreeWalk {
  import opened RbTreeModel
  import opened RbTreeHeap

  /** `RB_EMPTY_NODE`: the node is known to be in no tree. */
  predicate IsEmptyNode(node: Node)
    reads node
  {
    node.parent == node && node.color == Red
  }

  /** The node at place `i` of a tree. */
  ghost predicate InTree(root: RbRoot, node: Node, i: int)
    reads root, root.order
  {
    root.Valid() && 0 <= i < |root.order| && root.order[i] == node
  }

  // --- The ends of the tree --------------------------------------------------------------

  /** What a node's pointer to the left, or right, leads to. */
  lemma DownLeft(m: Mem, u: Tree, lo: int, hi: int)
    requires u.T? && InMem(m, u.i) && Linked(m, u, m[u.i].parent, lo, hi)
    ensures m[u.i].left == Root(u.l) && (u.l.Leaf? ==> u.i == lo)
    ensures u.l.T? ==> InMem(m, u.l.i) && Linked(m, u.l, m[u.l.i].parent, lo, u.i)
  {
    assert Linked(m, u.l, u.i, lo, u.i);
  }

  lemma DownRight(m: Mem, u: Tree, lo: int, hi: int)
    requires u.T? && InMem(m, u.i) && Linked(m, u, m[u.i].parent, lo, hi)
    ensures m[u.i].right == Root(u.r) && (u.r.Leaf? ==> u.i == hi - 1)
    ensures u.r.T? ==> InMem(m, u.r.i) && Linked(m, u.r, m[u.r.i].parent, u.i + 1, hi)
  {
    assert Linked(m, u.r, u.i, u.i + 1, hi);
  }

  /** `rb_first`'s descent: the first node of a subtree. */
  method Leftmost(ghost root: RbRoot, top: Node, ghost k: Ctx, ghost t: Tree, ghost lo: int,
                  ghost hi: int) returns (n: Node)
    requires At(root, k, t, lo, hi) && t.T? && top == Nd(root.order, t.i)
    ensures n == Nd(root.order, lo)
  {
    n := top;
    ghost var u, uhi := t, hi;
    LinkedPlaces(root.mem, t, Owner(k), lo, hi);
    while n.left != null
      invariant u.T? && n == Nd(root.order, u.i) && Linked(root.mem, u, root.mem[u.i].parent, lo, uhi)
      invariant InMem(root.mem, u.i)
      decreases u
    {
      DownLeft(root.mem, u, lo, uhi);
      n := n.left;
      u, uhi := u.l, u.i;
    }
    DownLeft(root.mem, u, lo, uhi);
  }

  method Rightmost(ghost root: RbRoot, top: Node, ghost k: Ctx, ghost t: Tree, ghost lo: int,
                   ghost hi: int) returns (n: Node)
    requires At(root, k, t, lo, hi) && t.T? && top == Nd(root.order, t.i)
    ensures n == Nd(root.order, hi - 1)
  {
    n := top;
    ghost var u, ulo := t, lo;
    LinkedPlaces(root.mem, t, Owner(k), lo, hi);
    while n.right != null
      invariant u.T? && n == Nd(root.order, u.i) && Linked(root.mem, u, root.mem[u.i].parent, ulo, hi)
      invariant InMem(root.mem, u.i)
      decreases u
    {
      DownRight(root.mem, u, ulo, hi);
      n := n.right;
      u, ulo := u.r, u.i + 1;
    }
    DownRight(root.mem, u, ulo, hi);
  }

  lemma LinkedPlaces(m: Mem, t: Tree, p: int, lo: int, hi: int)
    requires Linked(m, t, p, lo, hi) && t.T?
    ensures InMem(m, t.i) && m[t.i].parent == p
  {
  }

  /** `rb_first` */
  method First(root: RbRoot) returns (n: Node?)
    requires root.Valid()
    ensures n == Nd(root.order, 0)
  {
    n := root.node;
    if n == null { return; }
    n := Leftmost(root, n, Top, root.tree, 0, |root.order|);
  }

  /** `rb_last` */
  method Last(root: RbRoot) returns (n: Node?)
    requires root.Valid()
    ensures n == Nd(root.order, |root.order| - 1)
  {
    n := root.node;
    if n == null { return; }
    n := Rightmost(root, n, Top, root.tree, 0, |root.order|);
  }

  // --- Next and previous --------------------------------------------------------------------

  /** Whether the hole is on the right of its owner, and where the owner is. */
  lemma OwnerOf(root: RbRoot, k: Ctx, t: Tree, lo: int, hi: int)
    requires At(root, k, t, lo, hi) && t.T?
    ensures InMem(root.mem, t.i) && root.order[t.i].parent == Nd(root.order, Owner(k))
    ensures k.Top? ==> Owner(k) == NIL && lo == 0 && hi == |root.order|
    ensures k.In? ==> InMem(root.mem, k.i) && k.i == (if k.side == Left then hi else lo - 1)
    ensures k.In? ==> (root.order[k.i].right == root.order[t.i] <==> k.side == Right)
    ensures k.In? ==> (root.order[k.i].left == root.order[t.i] <==> k.side == Left)
  {
    if k.In? {
      assert Linked(root.mem, k.sib, k.i, SibLo(k, lo, hi), SibLo(k, lo, hi) + Size(k.sib));
    }
  }

  lemma GoUp(root: RbRoot, k: Ctx, t: Tree, lo: int, hi: int)
    requires At(root, k, t, lo, hi) && k.In?
    ensures At(root, k.up, Around(k, t), UpLo(k, lo), UpHi(k, hi))
  {
    ZippedUp(root.mem, k, t, lo, hi);
    assert RootOf(k, Root(t)) == RootOf(k.up, k.i);
  }

  lemma GoRight(root: RbRoot, k: Ctx, t: Tree, lo: int, hi: int)
    requires At(root, k, t, lo, hi) && t.T?
    ensures At(root, In(Right, t.c, t.i, t.l, k), t.r, t.i + 1, hi)
  {
    var k1 := In(Right, t.c, t.i, t.l, k);
    assert Around(k1, t.r) == t && DownLo(Right, t.i, lo) == t.i + 1 && DownHi(Right, t.i, hi) == hi;
    ZippedDown(root.mem, k1, t.r, lo, hi);
    assert RootOf(k1, Root(t.r)) == RootOf(k, t.i);
  }

  lemma GoLeft(root: RbRoot, k: Ctx, t: Tree, lo: int, hi: int)
    requires At(root, k, t, lo, hi) && t.T?
    ensures At(root, In(Left, t.c, t.i, t.r, k), t.l, lo, t.i)
  {
    var k1 := In(Left, t.c, t.i, t.r, k);
    assert Around(k1, t.l) == t && DownLo(Left, t.i, lo) == lo && DownHi(Left, t.i, hi) == t.i;
    ZippedDown(root.mem, k1, t.l, lo, hi);
    assert RootOf(k1, Root(t.l)) == RootOf(k, t.i);
  }

  /** Up while the node is a right-hand child; then its parent is next. */
  method UpFromRight(ghost root: RbRoot, start: Node, ghost k0: Ctx, ghost t0: Tree, ghost lo0: int,
                     ghost hi: int) returns (parent: Node?)
    requires At(root, k0, t0, lo0, hi) && t0.T? && start == Nd(root.order, t0.i)
    ensures parent == Nd(root.order, hi)
  {
    var node := start;
    parent := node.parent;
    ghost var k, t, lo := k0, t0, lo0;
    OwnerOf(root, k, t, lo, hi);
    while parent != null && node == parent.right
      invariant At(root, k, t, lo, hi) && t.T? && node == Nd(root.order, t.i) && parent == node.parent
      decreases k
    {
      OwnerOf(root, k, t, lo, hi);
      GoUp(root, k, t, lo, hi);
      k, t, lo := k.up, Around(k, t), UpLo(k, lo);
      node := parent;
      parent := node.parent;
    }
    OwnerOf(root, k, t, lo, hi);
  }

  method UpFromLeft(ghost root: RbRoot, start: Node, ghost k0: Ctx, ghost t0: Tree, ghost lo: int,
                    ghost hi0: int) returns (parent: Node?)
    requires At(root, k0, t0, lo, hi0) && t0.T? && start == Nd(root.order, t0.i)
    ensures parent == Nd(root.order, lo - 1)
  {
    var node := start;
    parent := node.parent;
    ghost var k, t, hi := k0, t0, hi0;
    OwnerOf(root, k, t, lo, hi);
    while parent != null && node == parent.left
      invariant At(root, k, t, lo, hi) && t.T? && node == Nd(root.order, t.i) && parent == node.parent
      decreases k
    {
      OwnerOf(root, k, t, lo, hi);
      GoUp(root, k, t, lo, hi);
      k, t, hi := k.up, Around(k, t), UpHi(k, hi);
      node := parent;
      parent := node.parent;
    }
    OwnerOf(root, k, t, lo, hi);
  }

  lemma NotEmpty(root: RbRoot, node: Node, i: int)
    requires InTree(root, node, i)
    ensures !IsEmptyNode(node)
  {
    var k, t, lo, hi := Focus(root.mem, Top, root.tree, 0, |root.order|, i);
    assert k.In? ==> LinkedCtx(root.mem, k, i, lo, hi) && k.i != i;
    assert root.mem[i].parent == Owner(k);
  }

  /** `rb_next` */
  method Next(node: Node, ghost root: RbRoot, ghost i: int) returns (n: Node?)
    requires IsEmptyNode(node) || InTree(root, node, i)
    ensures n == if InTree(root, node, i) then Nd(root.order, i + 1) else null
  {
    if InTree(root, node, i) { NotEmpty(root, node, i); }
    if IsEmptyNode(node) { return null; }
    ghost var k, t, lo, hi := FocusAt(root, i);
    ChildrenOf(root, k, t, lo, hi);
    if node.right != null {
      GoRight(root, k, t, lo, hi);
      n := Leftmost(root, node.right, In(Right, t.c, t.i, t.l, k), t.r, t.i + 1, hi);
      return;
    }
    assert Linked(root.mem, t.r, t.i, t.i + 1, hi);
    n := UpFromRight(root, node, k, t, lo, hi);
  }

  /** `rb_prev` */
  method Prev(node: Node, ghost root: RbRoot, ghost i: int) returns (n: Node?)
    requires IsEmptyNode(node) || InTree(root, node, i)
    ensures n == if InTree(root, node, i) then Nd(root.order, i - 1) else null
  {
    if InTree(root, node, i) { NotEmpty(root, node, i); }
    if IsEmptyNode(node) { return null; }
    ghost var k, t, lo, hi := FocusAt(root, i);
    ChildrenOf(root, k, t, lo, hi);
    if node.left != null {
      GoLeft(root, k, t, lo, hi);
      n := Rightmost(root, node.left, In(Left, t.c, t.i, t.r, k), t.l, lo, t.i);
      return;
    }
    assert Linked(root.mem, t.l, t.i, lo, t.i);
    n := UpFromLeft(root, node, k, t, lo, hi);
  }

  /** Going on and back again. */
  method NextThenPrev(node: Node, ghost root: RbRoot, ghost i: int) returns (n: Node?, p: Node?)
    requires InTree(root, node, i)
    ensures n == null <==> i == |root.order| - 1
    ensures n != null ==> p == node
  {
    n := Next(node, root, i);
    p := null;
    if n != null { p := Prev(n, root, i + 1); }
  }

  /** The usual loop: the first node, then the next one until there is none. */
  method InOrderWalk(root: RbRoot) returns (visited: seq<Node>)
    requires root.Valid()
    ensures visited == root.order
  {
    visited := [];
    var n := First(root);
    while n != null
      invariant |visited| <= |root.order| && visited == root.order[..|visited|]
      invariant n == Nd(root.order, |visited|)
      decreases |root.order| - |visited|
    {
      visited := visited + [n];
      n := Next(n, root, |visited| - 1);
    }
  }

  // --- Post-order -----------------------------------------------------------------------------

  /** The places of `t`, children before parents. */
  ghost function PostOrder(t: Tree): seq<int> {
    match t
    case Leaf => []
    case T(l, _, i, r) => PostOrder(l) + PostOrder(r) + [i]
  }

  /** What comes in post-order before and after the subtree in the hole. */
  ghost function PostBefore(k: Ctx): seq<int> {
    match k
    case Top => []
    case In(d, _, _, sib, up) => if d == Left then PostBefore(up) else PostBefore(up) + PostOrder(sib)
  }

  ghost function PostAfter(k: Ctx): seq<int> {
    match k
    case Top => []
    case In(d, _, i, sib, up) => if d == Left then PostOrder(sib) + [i] + PostAfter(up) else [i] + PostAfter(up)
  }

  lemma {:induction false} PostSplit(k: Ctx, t: Tree)
    ensures PostOrder(Plug(k, t)) == PostBefore(k) + PostOrder(t) + PostAfter(k)
    decreases k
  {
    if k.In? {
      PostSplit(k.up, Around(k, t));
      PostStep(PostBefore(k.up), PostOrder(t), PostOrder(k.sib), k.i, PostAfter(k.up));
    }
  }

  lemma PostStep(a: seq<int>, x: seq<int>, y: seq<int>, i: int, b: seq<int>)
    ensures a + (x + y + [i]) + b == a + x + (y + [i] + b)
    ensures a + (y + x + [i]) + b == (a + y) + x + ([i] + b)
  {
  }

  /** Post-order visits every place of a subtree, and none twice. */
  lemma {:induction false} PostPlaces(m: Mem, t: Tree, p: int, lo: int, hi: int)
    requires Linked(m, t, p, lo, hi)
    ensures |PostOrder(t)| == hi - lo
    ensures forall i :: lo <= i < hi <==> i in PostOrder(t)
    ensures forall a, b :: 0 <= a < b < |PostOrder(t)| ==> PostOrder(t)[a] != PostOrder(t)[b]
    decreases t
  {
    if t.T? {
      PostPlaces(m, t.l, t.i, lo, t.i);
      PostPlaces(m, t.r, t.i, t.i + 1, hi);
      PostApart(PostOrder(t.l), PostOrder(t.r), t.i);
    }
  }

  lemma PostApart(x: seq<int>, y: seq<int>, i: int)
    requires forall a, b :: 0 <= a < b < |x| ==> x[a] != x[b]
    requires forall a, b :: 0 <= a < b < |y| ==> y[a] != y[b]
    requires forall v :: v in x ==> v < i
    requires forall v :: v in y ==> i < v
    ensures forall a, b :: 0 <= a < b < |x + y + [i]| ==> (x + y + [i])[a] != (x + y + [i])[b]
  {
    var s := x + y + [i];
    forall a, b | 0 <= a < b < |s|
      ensures s[a] != s[b]
    {
      assert s[a] == if a < |x| then x[a] else y[a - |x|];
      assert s[b] == if b < |x| then x[b] else if b < |x| + |y| then y[b - |x|] else i;
      assert a < |x| ==> x[a] in x;
      assert a >= |x| ==> y[a - |x|] in y;
      assert |x| <= b < |x| + |y| ==> y[b - |x|] in y;
    }
  }

  /** The node at post-order position `j`, or null at the end. */
  ghost function PostNd(root: RbRoot, j: int): Node?
    reads root
  {
    var p := PostOrder(root.tree);
    if 0 <= j < |p| then Nd(root.order, p[j]) else null
  }

  /** `rb_left_deepest_node`: the first node of a subtree in post-order. */
  method LeftDeepest(ghost root: RbRoot, top: Node, ghost k: Ctx, ghost t: Tree, ghost lo: int,
                     ghost hi: int) returns (n: Node)
    requires At(root, k, t, lo, hi) && t.T? && top == Nd(root.order, t.i)
    ensures PostOrder(t) != [] && n == Nd(root.order, PostOrder(t)[0])
  {
    n := top;
    ghost var u, ulo, uhi := t, lo, hi;
    LinkedPlaces(root.mem, t, Owner(k), lo, hi);
    while n.left != null || n.right != null
      invariant u.T? && n == Nd(root.order, u.i) && InMem(root.mem, u.i)
      invariant Linked(root.mem, u, root.mem[u.i].parent, ulo, uhi) && PostOrder(u)[0] == PostOrder(t)[0]
      decreases u
    {
      assert Linked(root.mem, u.l, u.i, ulo, u.i) && Linked(root.mem, u.r, u.i, u.i + 1, uhi);
      if n.left != null {
        n := n.left;
        u, uhi := u.l, u.i;
      } else {
        n := n.right;
        u, ulo := u.r, u.i + 1;
      }
    }
    assert Linked(root.mem, u.l, u.i, ulo, u.i) && Linked(root.mem, u.r, u.i, u.i + 1, uhi);
  }

  /** `rb_first_postorder` */
  method FirstPostOrder(root: RbRoot) returns (n: Node?)
    requires root.Valid()
    ensures n == PostNd(root, 0)
  {
    if root.node == null { return null; }
    n := LeftDeepest(root, root.node, Top, root.tree, 0, |root.order|);
  }

  /** `rb_next_postorder` */
  method NextPostOrder(node: Node?, ghost root: RbRoot, ghost j: int) returns (n: Node?)
    requires root.Valid() && node == PostNd(root, j) && 0 <= j <= |PostOrder(root.tree)|
    ensures n == PostNd(root, j + 1)
  {
    PostExists(root);
    if node == null { return null; }
    ghost var k, t, lo, hi := PostFocus(root, j);
    OwnerOf(root, k, t, lo, hi);
    var parent := node.parent;
    if parent != null && node == parent.left && parent.right != null {
      ghost var up := In(Right, k.c, k.i, t, k.up);
      GoAcross(root, k, t, lo, hi);
      n := LeftDeepest(root, parent.right, up, k.sib, k.i + 1, k.i + 1 + Size(k.sib));
    } else {
      n := parent;
    }
  }

  lemma PostExists(root: RbRoot)
    requires root.Valid()
    ensures |PostOrder(root.tree)| == |root.order|
    ensures forall j {:trigger PostNd(root, j)} :: PostNd(root, j) != null <==> 0 <= j < |root.order|
  {
    PostPlaces(root.mem, root.tree, NIL, 0, |root.order|);
    forall j {:trigger PostNd(root, j)} | 0 <= j < |root.order|
      ensures PostNd(root, j) != null
    {
      assert PostOrder(root.tree)[j] in PostOrder(root.tree);
    }
  }

  /** The subtree that ends at post-order position `j`, and what comes next. */
  ghost method PostFocus(root: RbRoot, j: int) returns (k: Ctx, t: Tree, lo: int, hi: int)
    requires root.Valid() && 0 <= j < |PostOrder(root.tree)|
    ensures At(root, k, t, lo, hi) && t.T? && PostNd(root, j) == Nd(root.order, t.i)
    ensures PostNd(root, j + 1) == if PostAfter(k) == [] then null else Nd(root.order, PostAfter(k)[0])
  {
    PostPlaces(root.mem, root.tree, NIL, 0, |root.order|);
    var i := PostOrder(root.tree)[j];
    assert i in PostOrder(root.tree);
    k, t, lo, hi := FocusAt(root, i);
    PostSplit(k, t);
    var p := |PostBefore(k)| + |PostOrder(t)| - 1;
    assert PostOrder(root.tree)[p] == i;
  }

  lemma SiblingPlace(m: Mem, k: Ctx, t: Tree, lo: int, hi: int)
    requires Zipped(m, k, t, lo, hi) && k.In? && k.side == Left
    ensures InMem(m, k.i) && m[k.i].right == Root(k.sib) && (k.sib.T? ==> InMem(m, k.sib.i))
  {
    assert Linked(m, k.sib, k.i, hi + 1, hi + 1 + Size(k.sib));
  }

  /** From a left child to its sibling. */
  lemma GoAcross(root: RbRoot, k: Ctx, t: Tree, lo: int, hi: int)
    requires At(root, k, t, lo, hi) && k.In? && k.side == Left
    ensures At(root, In(Right, k.c, k.i, t, k.up), k.sib, k.i + 1, k.i + 1 + Size(k.sib))
    ensures InMem(root.mem, k.i) && root.order[k.i].right == Nd(root.order, Root(k.sib))
    ensures (k.sib.T? ==> InMem(root.mem, k.sib.i))
  {
    assert k.i == hi && UpHi(k, hi) == k.i + 1 + Size(k.sib);
    GoUp(root, k, t, lo, hi);
    assert Around(k, t) == T(t, k.c, k.i, k.sib);
    GoRight(root, k.up, Around(k, t), UpLo(k, lo), UpHi(k, hi));
    SiblingPlace(root.mem, k, t, lo, hi);
  }

  /** The usual loop in post-order. */
  method PostOrderWalk(root: RbRoot) returns (visited: seq<Node>)
    requires root.Valid()
    ensures |visited| == |root.order|
    ensures |PostOrder(root.tree)| == |visited| && forall j :: 0 <= j < |visited| ==> visited[j] == PostNd(root, j)
  {
    visited := [];
    PostExists(root);
    var n := FirstPostOrder(root);
    while n != null
      invariant |visited| <= |root.order| && forall j :: 0 <= j < |visited| ==> visited[j] == PostNd(root, j)
      invariant n == PostNd(root, |visited|)
      decreases |root.order| - |visited|
    {
      visited := visited + [n];
      n := NextPostOrder(n, root, |visited| - 1);
    }
  }

  /** In post-order every node but the last comes before its parent. */
  lemma {:induction false} ParentLater(m: Mem, t: Tree, p: int, lo: int, hi: int, a: int)
    requires Linked(m, t, p, lo, hi) && 0 <= a < |PostOrder(t)|
    ensures InMem(m, PostOrder(t)[a])
    ensures if a == |PostOrder(t)| - 1 then PostOrder(t)[a] == Root(t)
            else exists b :: a < b < |PostOrder(t)| && PostOrder(t)[b] == m[PostOrder(t)[a]].parent
    decreases t
  {
    var x, y, s := PostOrder(t.l), PostOrder(t.r), PostOrder(t);
    assert Linked(m, t.l, t.i, lo, t.i) && Linked(m, t.r, t.i, t.i + 1, hi);
    if a < |x| {
      ParentLater(m, t.l, t.i, lo, t.i, a);
      assert s[a] == x[a];
      if a < |x| - 1 {
        var b :| a < b < |x| && x[b] == m[x[a]].parent;
        assert s[b] == x[b];
      } else {
        assert s[|s| - 1] == t.i;
      }
    } else if a < |x| + |y| {
      var a' := a - |x|;
      ParentLater(m, t.r, t.i, t.i + 1, hi, a');
      assert s[a] == y[a'];
      if a' < |y| - 1 {
        var b :| a' < b < |y| && y[b] == m[y[a']].parent;
        assert s[|x| + b] == y[b];
      } else {
        assert s[|s| - 1] == t.i;
      }
    }
  }

  // --- Replacing a node --------------------------------------------------------------------------

  /** Who points to the node at place `i`. */
  lemma Neighbours(m: Mem, i: int, j: int)
    requires Consistent(m) && InMem(m, i) && InMem(m, j)
    ensures m[j].left == i || m[j].right == i ==> j == m[i].parent
    ensures m[j].parent == i ==> j == m[i].left || j == m[i].right
  {
    assert ChildOk(m, j, m[j].left) && ChildOk(m, j, m[j].right) && ParentOk(m, j);
  }

  /** The fields after the replacement: every pointer to the node at place `i` has become one
      to `now`. */
  ghost predicate Redirected(s: seq<Node>, m: Mem, i: int, now: Node)
    requires InMem(m, i)
    reads s, now
  {
    var c := m[i];
    && |s| == |m| && NoDup(s) && now !in s
    && now.left == Nd(s, c.left) && now.right == Nd(s, c.right) && now.parent == Nd(s, c.parent) && now.color == c.color
    && forall j {:trigger m[j]} :: 0 <= j < |s| ==>
         && s[j].color == m[j].color
         && s[j].left == (if j == c.parent && m[j].left == i then now else Nd(s, m[j].left))
         && s[j].right == (if j == c.parent && m[j].left != i then now else Nd(s, m[j].right))
         && s[j].parent == (if j == c.left || j == c.right then now else Nd(s, m[j].parent))
  }

  /** `__rb_change_child`, towards a node that is not yet in the tree. */
  method RedirectChild(victim: Node, now: Node, root: RbRoot, ghost i: int)
    requires IsAt(root, victim, i)
    modifies root`node, root.order`left, root.order`right
    ensures root.node == if victim.parent == null then now else old(root.node)
    ensures var s, m := root.order, root.mem; forall j {:trigger m[j]} :: 0 <= j < |s| ==>
         && s[j].left == (if j == m[i].parent && m[j].left == i then now else Nd(s, m[j].left))
         && s[j].right == (if j == m[i].parent && m[j].left != i then now else Nd(s, m[j].right))
  {
    var parent := victim.parent;
    if parent != null {
      assert parent.left == victim <==> root.mem[root.mem[i].parent].left == i;
      if parent.left == victim { parent.left := now; } else { parent.right := now; }
    } else {
      root.node := now;
    }
  }

  method RedirectParents(victim: Node, now: Node, ghost root: RbRoot, ghost i: int)
    requires |root.order| == |root.mem| && NoDup(root.order) && Nd(root.order, i) == victim && InMem(root.mem, i)
    requires victim.left == Nd(root.order, root.mem[i].left) && victim.right == Nd(root.order, root.mem[i].right)
    requires var s, m := root.order, root.mem; forall j {:trigger m[j]} :: 0 <= j < |s| ==>
      s[j].parent == Nd(s, m[j].parent)
    modifies root.order`parent
    ensures var s, m := root.order, root.mem; forall j {:trigger m[j]} :: 0 <= j < |s| ==>
         s[j].parent == (if j == m[i].left || j == m[i].right then now else Nd(s, m[j].parent))
  {
    if victim.left != null { victim.left.parent := now; }
    if victim.right != null { victim.right.parent := now; }
  }

  method ReplaceFields(victim: Node, now: Node, root: RbRoot, ghost i: int)
    requires IsAt(root, victim, i) && now !in root.order
    requires var c := root.mem[i];
      i !in {c.left, c.right, c.parent} && (c.parent != NIL ==> c.parent !in {c.left, c.right})
    modifies root`node, now, root.order
    ensures Redirected(root.order, root.mem, i, now)
    ensures root.node == if old(victim.parent) == null then now else old(root.node)
  {
    ghost var c := root.mem[i];
    RedirectChild(victim, now, root, i);
    assert root.mem[i] == c && root.order[i] == victim;
    assert victim.left == Nd(root.order, c.left) && victim.right == Nd(root.order, c.right);
    RedirectParents(victim, now, root, i);
    now.left, now.right, now.parent, now.color := victim.left, victim.right, victim.parent, victim.color;
    assert victim !in {now} && victim.parent == Nd(root.order, c.parent) && victim.color == c.color;
  }

  lemma RedirectedShows(s: seq<Node>, m: Mem, i: int, now: Node)
    requires InMem(m, i) && Redirected(s, m, i, now) && Consistent(m) && i !in {m[i].left, m[i].right, m[i].parent}
    requires InMem(m, m[i].parent) ==> m[m[i].parent].left != m[m[i].parent].right
    ensures Shows(s[i := now], m)
  {
    var s' := s[i := now];
    forall j {:trigger m[j]} | 0 <= j < |s'|
      ensures && s'[j].left == Nd(s', m[j].left) && s'[j].right == Nd(s', m[j].right)
              && s'[j].parent == Nd(s', m[j].parent) && s'[j].color == m[j].color
    {
      Neighbours(m, i, j);
      assert ChildOk(m, i, m[i].left) && ChildOk(m, i, m[i].right) && ParentOk(m, i);
    }
  }

  lemma ReplaceScene(m: Mem, k: Ctx, t: Tree, lo: int, hi: int)
    requires Zipped(m, k, t, lo, hi) && t.T?
    ensures InMem(m, t.i) && t.i !in {m[t.i].left, m[t.i].right, m[t.i].parent} && m[t.i].parent == Owner(k)
    ensures m[t.i].parent == NIL <==> k.Top?
    ensures m[t.i].parent != NIL ==> m[t.i].parent !in {m[t.i].left, m[t.i].right}
    ensures InMem(m, m[t.i].parent) ==> m[m[t.i].parent].left != m[m[t.i].parent].right
  {
    assert Linked(m, t.l, t.i, lo, t.i) && Linked(m, t.r, t.i, t.i + 1, hi);
    if k.In? {
      assert Linked(m, k.sib, k.i, SibLo(k, lo, hi), SibLo(k, lo, hi) + Size(k.sib));
    }
  }

  lemma RootPlace(m: Mem, k: Ctx, t: Tree, lo: int, hi: int)
    requires Zipped(m, k, t, lo, hi) && t.T?
    ensures if k.Top? then Root(Plug(k, t)) == t.i else Root(Plug(k, t)) != t.i
  {
    ZippedTop(m, k, t, lo, hi);
    if k.In? {
      LinkedConsistent(m, Plug(k, t), NIL, 0, |m|, t.i);
      assert m[t.i].parent == k.i;
    }
  }

  lemma ReplaceReady(root: RbRoot, i: int)
    requires root.Valid() && 0 <= i < |root.order|
    ensures Consistent(root.mem) && InMem(root.mem, i)
    ensures var m := root.mem;
      && i !in {m[i].left, m[i].right, m[i].parent} && (m[i].parent == NIL <==> Root(root.tree) == i)
      && (m[i].parent != NIL ==> m[i].parent !in {m[i].left, m[i].right} && InMem(m, m[i].parent))
      && (InMem(m, m[i].parent) ==> m[m[i].parent].left != m[m[i].parent].right)
  {
    var k, t, lo, hi := Focus(root.mem, Top, root.tree, 0, |root.order|, i);
    ZippedConsistent(root.mem, k, t, lo, hi);
    ReplaceScene(root.mem, k, t, lo, hi);
    RootPlace(root.mem, k, t, lo, hi);
  }

  /** `rb_replace_node`: `now` takes the place, the links and the colour of `victim`. */
  method Replace(victim: Node, now: Node, root: RbRoot, ghost i: int)
    requires InTree(root, victim, i) && now !in root.order
    modifies root`node, root`order, now, root.order
    ensures root.order == old(root.order[i := now]) && root.tree == old(root.tree) && root.Valid()
  {
    ReplaceReady(root, i);
    ReplaceFields(victim, now, root, i);
    RedirectedShows(root.order, root.mem, i, now);
    root.order := root.order[i := now];
  }
}
