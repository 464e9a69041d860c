/** Linked nodes in memory, and the tree below a root. */
module RbTreeHeap {
  import opened RbTreeModel

  /** `struct rb_node`; the word `__rb_parent_color` is split into its two parts. */
  class Node {
    var left: Node?
    var right: Node?
    var parent: Node?
    var color: Color

    constructor ()
      ensures left == right == parent == null && color == Red
    {
      left, right, parent, color := null, null, null, Red;
    }
  }

  /** The node at place `i`, or null. */
  ghost function Nd(s: seq<Node>, i: int): Node? {
    if 0 <= i < |s| then s[i] else null
  }

  ghost predicate NoDup(s: seq<Node>) {
    forall i, j :: 0 <= i < j < |s| ==> s[i] != s[j]
  }

  /** The fields of the nodes `s` are those of `m`, places standing for pointers. */
  ghost predicate Shows(s: seq<Node>, m: Mem)
    reads s
  {
    && |s| == |m| && NoDup(s)
    && forall j {:trigger m[j]} :: 0 <= j < |s| ==>
         && s[j].left == Nd(s, m[j].left) && s[j].right == Nd(s, m[j].right)
         && s[j].parent == Nd(s, m[j].parent) && s[j].color == m[j].color
  }

  /** `struct rb_root`. The ghost fields give the nodes below it in order, their
      fields, and the tree they make up. */
  class RbRoot {
    var node: Node?
    ghost var order: seq<Node>
    ghost var mem: Mem
    ghost var tree: Tree

    ghost predicate Valid()
      reads this, order
    {
      At(this, Top, tree, 0, |order|)
    }

    constructor ()
      ensures Valid() && tree == Leaf && order == []
    {
      node, order, mem, tree := null, [], [], Leaf;
    }
  }

  /** The nodes below `root` make up `Plug(k, t)`, `t` holding the places from `lo` to `hi`. */
  ghost predicate At(root: RbRoot, k: Ctx, t: Tree, lo: int, hi: int)
    reads root, root.order
  {
    && Shows(root.order, root.mem)
    && root.node == Nd(root.order, RootOf(k, Root(t)))
    && Zipped(root.mem, k, t, lo, hi)
  }

  /** The tree seen from anywhere is the tree of the root. */
  ghost method Settle(root: RbRoot, k: Ctx, t: Tree, lo: int, hi: int)
    requires At(root, k, t, lo, hi) && Balanced(k, t)
    modifies root`tree
    ensures root.Valid() && IsRb(root.tree)
  {
    RbPlug(k, t);
    ZippedTop(root.mem, k, t, lo, hi);
    root.tree := Plug(k, t);
  }

  ghost method FocusAt(root: RbRoot, i: int) returns (k: Ctx, t: Tree, lo: int, hi: int)
    requires root.Valid() && 0 <= i < |root.order|
    ensures At(root, k, t, lo, hi) && t.T? && t.i == i && Plug(k, t) == root.tree
    ensures IsRb(root.tree) <==> Balanced(k, t)
  {
    k, t, lo, hi := Focus(root.mem, Top, root.tree, 0, |root.order|, i);
    ZippedTop(root.mem, k, t, lo, hi);
    RbPlug(k, t);
  }

  lemma ChildrenOf(root: RbRoot, k: Ctx, t: Tree, lo: int, hi: int)
    requires At(root, k, t, lo, hi) && t.T?
    ensures InMem(root.mem, t.i)
    ensures var x := root.order[t.i];
      && x.left == Nd(root.order, Root(t.l)) && x.right == Nd(root.order, Root(t.r))
      && (x.left == null <==> t.l.Leaf?) && (x.right == null <==> t.r.Leaf?)
  {
    assert Linked(root.mem, t.l, t.i, lo, t.i) && Linked(root.mem, t.r, t.i, t.i + 1, hi);
  }

  // --- Setters ----------------------------------------------------------------
  // Each keeps `mem` in step with the fields it writes; `x` is the node at place `i`.

  ghost predicate IsAt(root: RbRoot, x: Node?, i: int)
    reads root, root.order
  {
    Shows(root.order, root.mem) && 0 <= i < |root.order| && root.order[i] == x
  }

  method SetLeft(root: RbRoot, x: Node, y: Node?, ghost i: int, ghost j: int)
    requires IsAt(root, x, i) && y == Nd(root.order, j)
    modifies root`mem, x`left
    ensures root.node == old(root.node) && root.order == old(root.order) && Shows(root.order, root.mem)
    ensures root.mem == old(root.mem[i := root.mem[i].(left := j)])
  {
    x.left := y;
    root.mem := root.mem[i := root.mem[i].(left := j)];
  }

  method SetRight(root: RbRoot, x: Node, y: Node?, ghost i: int, ghost j: int)
    requires IsAt(root, x, i) && y == Nd(root.order, j)
    modifies root`mem, x`right
    ensures root.node == old(root.node) && root.order == old(root.order) && Shows(root.order, root.mem)
    ensures root.mem == old(root.mem[i := root.mem[i].(right := j)])
  {
    x.right := y;
    root.mem := root.mem[i := root.mem[i].(right := j)];
  }

  /** `rb_set_parent_color` */
  method SetParentColor(root: RbRoot, x: Node, p: Node?, c: Color, ghost i: int, ghost j: int)
    requires IsAt(root, x, i) && p == Nd(root.order, j)
    modifies root`mem, x`parent, x`color
    ensures root.node == old(root.node) && root.order == old(root.order) && Shows(root.order, root.mem)
    ensures root.mem == old(root.mem[i := root.mem[i].(parent := j, color := c)])
  {
    x.parent, x.color := p, c;
    root.mem := root.mem[i := root.mem[i].(parent := j, color := c)];
  }

  ghost function ChangeChildMem(m: Mem, parent: int, was: int, now: int): (m': Mem)
    ensures |m'| == |m|
  {
    if !InMem(m, parent) then m
    else m[parent := m[parent].SetChild(if m[parent].left == was then Left else Right, now)]
  }

  /** `__rb_change_child` */
  method ChangeChild(root: RbRoot, was: Node, now: Node?, parent: Node?, ghost w: int, ghost n: int, ghost p: int)
    requires IsAt(root, was, w) && now == Nd(root.order, n) && parent == Nd(root.order, p)
    modifies root`mem, root`node, if parent == null then {} else {parent}
    ensures Shows(root.order, root.mem) && root.mem == ChangeChildMem(old(root.mem), p, w, n)
    ensures root.node == if parent == null then now else old(root.node)
  {
    if parent != null {
      assert parent.left == was <==> root.mem[p].left == w;
      if parent.left == was {
        SetLeft(root, parent, now, p, n);
      } else {
        SetRight(root, parent, now, p, n);
      }
    } else {
      root.node := now;
    }
  }

  ghost function RotateSetMem(m: Mem, w: int, n: int, c: Color): (m': Mem)
    requires InMem(m, w) && InMem(m, n)
    ensures |m'| == |m|
  {
    var m1 := m[n := m[n].(parent := m[w].parent, color := m[w].color)];
    ChangeChildMem(m1[w := m1[w].(parent := n, color := c)], m[w].parent, w, n)
  }

  /** `__rb_rotate_set_parents`: `now` takes the place and the colour of `was`, which
      becomes a child of `now` with colour `color`. */
  method RotateSetParents(root: RbRoot, was: Node, now: Node, color: Color, ghost w: int, ghost n: int)
    requires IsAt(root, was, w) && IsAt(root, now, n) && w != n
    modifies root`mem, root`node, was, now, if was.parent == null then {} else {was.parent}
    ensures Shows(root.order, root.mem) && root.mem == RotateSetMem(old(root.mem), w, n, color)
    ensures root.node == if old(was.parent) == null then now else old(root.node)
  {
    var parent := was.parent;
    ghost var m := root.mem;
    ghost var p := m[w].parent;
    SetParentColor(root, now, was.parent, was.color, n, p);
    ghost var m1 := m[n := m[n].(parent := p, color := m[w].color)];
    assert root.mem == m1;
    SetParentColor(root, was, now, color, w, n);
    assert root.mem == m1[w := m1[w].(parent := n, color := color)];
    ChangeChild(root, was, now, parent, w, n, p);
  }

  // --- Rotations, as the source writes them ------------------------------------------

  /** Node `x` becomes a black child of `p`. */
  ghost function Moved(m: Mem, x: int, p: int): (m': Mem)
    ensures |m'| == |m|
  {
    if InMem(m, x) then m[x := m[x].(parent := p, color := Black)] else m
  }

  /** `p`, on side `d` of `g`, rises above `g`, handing over its child `b`. */
  ghost function TurnMem(m: Mem, d: Side, g: int, p: int, b: int): (m': Mem)
    requires InMem(m, g) && InMem(m, p)
    ensures |m'| == |m|
  {
    var m1 := m[g := m[g].SetChild(d, b)];
    RotateSetMem(Moved(m1[p := m1[p].SetChild(d.Other(), g)], b, g), g, p, Red)
  }

  method TurnLeft(root: RbRoot, gparent: Node, parent: Node, tmp: Node?, ghost g: int, ghost p: int, ghost b: int)
    requires IsAt(root, gparent, g) && IsAt(root, parent, p) && tmp == Nd(root.order, b) && g != p && g != b && p != b
    modifies root`mem, root`node, root.order
    ensures Shows(root.order, root.mem)
    ensures root.mem == old(TurnMem(root.mem, Left, g, p, b))
    ensures root.node == if old(gparent.parent) == null then parent else old(root.node)
  {
    SetLeft(root, gparent, tmp, g, b);
    SetRight(root, parent, gparent, p, g);
    if tmp != null { SetParentColor(root, tmp, gparent, Black, b, g); }
    RotateSetParents(root, gparent, parent, Red, g, p);
  }

  method TurnRight(root: RbRoot, gparent: Node, parent: Node, tmp: Node?, ghost g: int, ghost p: int, ghost b: int)
    requires IsAt(root, gparent, g) && IsAt(root, parent, p) && tmp == Nd(root.order, b) && g != p && g != b && p != b
    modifies root`mem, root`node, root.order
    ensures Shows(root.order, root.mem)
    ensures root.mem == old(TurnMem(root.mem, Right, g, p, b))
    ensures root.node == if old(gparent.parent) == null then parent else old(root.node)
  {
    SetRight(root, gparent, tmp, g, b);
    SetLeft(root, parent, gparent, p, g);
    if tmp != null { SetParentColor(root, tmp, gparent, Black, b, g); }
    RotateSetParents(root, gparent, parent, Red, g, p);
  }

  lemma TurnIsRotate(m: Mem, up: Ctx, d: Side, g: int, p: int, b: int)
    requires InMem(m, g) && InMem(m, p) && g != p && b != g && b != p
    requires m[g].parent == Owner(up) && m[g].color == Black
    requires InMem(m, b) ==> m[b].color == Black
    requires up.In? ==> InMem(m, up.i) && up.i !in {g, p, b}
    requires up.In? ==> m[up.i].Child(up.side) == g && m[up.i].Child(up.side.Other()) != g
    ensures TurnMem(m, d, g, p, b) == Rotate(m, up, d, g, p, b, Black, Red)
  {
    var m1, m2 := TurnMem(m, d, g, p, b), Rotate(m, up, d, g, p, b, Black, Red);
    forall j | 0 <= j < |m|
      ensures m1[j] == m2[j]
    {
    }
  }
}
