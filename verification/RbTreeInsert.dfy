/** Rebalancing after an insertion (`__rb_insert`). */
module RbTreeInsert {
  import opened RbTreeModel
  import opened RbTreeHeap

  // The parent of the red node `t` is red and hangs on side `k.up.side` of the
  // grandparent; `k.sib` is the parent's other child and `k.up.sib` the uncle.

  ghost predicate RedParent(k: Ctx) { k.In? && k.up.In? && k.c == Red && k.up.c == Black }

  /** The loop invariant: `t` is red, and nothing is wrong but a red parent or the root. */
  ghost predicate RedHole(k: Ctx, t: Tree) {
    && t.T? && t.c == Red && Even(t) && NoRedRed(t)
    && EvenCtx(k, Bh(t)) && NoRedRedCtx(k, Black)
  }

  /** Case 1: the parent and the uncle turn black, the grandparent red. */
  ghost function Flip(k: Ctx, t: Tree): Tree
    requires RedParent(k) && k.up.sib.T?
  {
    Mk(k.up.side, Red, k.up.i, Mk(k.side, Black, k.i, t, k.sib), k.up.sib.(c := Black))
  }

  ghost function FlipMem(m: Mem, k: Ctx): Mem
    requires RedParent(k) && k.up.sib.T? && InMem(m, k.i) && InMem(m, k.up.i) && InMem(m, k.up.sib.i)
  {
    SetColor(SetColor(SetColor(m, k.up.sib.i, Black), k.i, Black), k.up.i, Red)
  }

  /** Where the parent, the grandparent and the uncle are. */
  lemma RelativePlaces(m: Mem, k: Ctx, t: Tree, lo: int, hi: int)
    requires RedParent(k) && Zipped(m, k, t, lo, hi)
    ensures InMem(m, k.i) && InMem(m, k.up.i) && (if k.up.side == Left then k.i < k.up.i else k.up.i < k.i)
    ensures k.up.sib.T? ==> InMem(m, k.up.sib.i)
    ensures k.up.sib.T? ==> if k.up.side == Left then k.up.i < k.up.sib.i else k.up.sib.i < k.up.i
    ensures UpLo(k.up, UpLo(k, lo)) <= k.i < UpHi(k.up, UpHi(k, hi))
    ensures UpLo(k.up, UpLo(k, lo)) <= k.up.i < UpHi(k.up, UpHi(k, hi))
    ensures k.up.sib.T? ==> UpLo(k.up, UpLo(k, lo)) <= k.up.sib.i < UpHi(k.up, UpHi(k, hi))
  {
    assert LinkedCtx(m, k.up, k.i, UpLo(k, lo), UpHi(k, hi));
    var sib := SibLo(k.up, UpLo(k, lo), UpHi(k, hi));
    assert Linked(m, k.up.sib, k.up.i, sib, sib + Size(k.up.sib));
  }

  lemma FlipPaints(k: Ctx, t: Tree)
    requires RedParent(k) && k.up.sib.T?
    requires if k.up.side == Left then k.i < k.up.i < k.up.sib.i else k.up.sib.i < k.up.i < k.i
    ensures Flip(k, t) ==
      Paint(Paint(Paint(Around(k.up, Around(k, t)), k.up.sib.i, Black), k.i, Black), k.up.i, Red)
  {
    var g, p := k.up, Around(k, t);
    assert Paint(p, k.i, Black) == Mk(k.side, Black, k.i, t, k.sib);
    assert Paint(Around(g, p), g.sib.i, Black) == Mk(g.side, Black, g.i, p, g.sib.(c := Black));
  }

  lemma FlipZipped(m: Mem, k: Ctx, t: Tree, lo: int, hi: int)
    requires RedParent(k) && k.up.sib.T? && Zipped(m, k, t, lo, hi)
    ensures InMem(m, k.i) && InMem(m, k.up.i) && InMem(m, k.up.sib.i)
    ensures Zipped(FlipMem(m, k), k.up.up, Flip(k, t), UpLo(k.up, UpLo(k, lo)), UpHi(k.up, UpHi(k, hi)))
  {
    var g, p := k.up, Around(k, t);
    var lo1, hi1 := UpLo(k, lo), UpHi(k, hi);
    var lo2, hi2 := UpLo(g, lo1), UpHi(g, hi1);
    RelativePlaces(m, k, t, lo, hi);
    ZippedUp(m, k, t, lo, hi);
    ZippedUp(m, g, p, lo1, hi1);
    var t0 := Around(g, p);
    PaintZipped(m, g.up, t0, g.sib.i, Black, lo2, hi2);
    var m1, t1 := SetColor(m, g.sib.i, Black), Paint(t0, g.sib.i, Black);
    PaintZipped(m1, g.up, t1, k.i, Black, lo2, hi2);
    var m2, t2 := SetColor(m1, k.i, Black), Paint(t1, k.i, Black);
    PaintZipped(m2, g.up, t2, g.i, Red, lo2, hi2);
    FlipPaints(k, t);
  }

  // Cases 2 and 3: rotations.

  ghost predicate Outside(k: Ctx) { RedParent(k) && k.side == k.up.side }

  ghost predicate Inside(k: Ctx, t: Tree) { RedParent(k) && k.side != k.up.side && t.T? }

  ghost function OutsideFixed(k: Ctx, t: Tree): Tree
    requires Outside(k)
  {
    Mk(k.side, Black, k.i, t, Mk(k.side, Red, k.up.i, k.sib, k.up.sib))
  }

  ghost function OutsideMem(m: Mem, k: Ctx): Mem
    requires Outside(k) && InMem(m, k.i) && InMem(m, k.up.i)
  {
    Rotate(m, k.up.up, k.side, k.up.i, k.i, Root(k.sib), Black, Red)
  }

  /** The subtree of `t` on side `d`. */
  ghost function Child(t: Tree, d: Side): Tree
    requires t.T?
  {
    if d == Left then t.l else t.r
  }

  ghost function InsideFixed(k: Ctx, t: Tree): Tree
    requires Inside(k, t)
  {
    var d := k.up.side;
    Mk(d, Black, t.i, Mk(d, Red, k.i, k.sib, Child(t, d)), Mk(d, Red, k.up.i, Child(t, k.side), k.up.sib))
  }

  /** First a rotation at the parent, then one at the grandparent. */
  ghost function InsideMem1(m: Mem, k: Ctx, t: Tree): (m': Mem)
    requires Inside(k, t) && InMem(m, t.i) && InMem(m, k.i)
    ensures |m'| == |m|
  {
    Rotate(m, k.up, k.side, k.i, t.i, Root(Child(t, k.up.side)), Red, Red)
  }

  ghost function InsideMem(m: Mem, k: Ctx, t: Tree): Mem
    requires Inside(k, t) && InMem(m, t.i) && InMem(m, k.i) && InMem(m, k.up.i)
  {
    Rotate(InsideMem1(m, k, t), k.up.up, k.up.side, k.up.i, t.i, Root(Child(t, k.side)), Black, Red)
  }

  lemma OutsideZipped(m: Mem, k: Ctx, t: Tree, lo: int, hi: int)
    requires Outside(k) && Zipped(m, k, t, lo, hi)
    ensures InMem(m, k.i) && InMem(m, k.up.i)
    ensures Zipped(OutsideMem(m, k), k.up.up, OutsideFixed(k, t), UpLo(k.up, UpLo(k, lo)), UpHi(k.up, UpHi(k, hi)))
  {
    var g, p := k.up, Around(k, t);
    var lo1, hi1 := UpLo(k, lo), UpHi(k, hi);
    RelativePlaces(m, k, t, lo, hi);
    ZippedUp(m, k, t, lo, hi);
    ZippedUp(m, g, p, lo1, hi1);
    RotateZipped(m, g.up, k.side, t, k.i, k.sib, g.i, g.sib, Red, Black, Black, Red, UpLo(g, lo1), UpHi(g, hi1));
  }

  lemma InsideZipped(m: Mem, k: Ctx, t: Tree, lo: int, hi: int)
    requires Inside(k, t) && t.c == Red && Zipped(m, k, t, lo, hi)
    ensures InMem(m, k.i) && InMem(m, k.up.i) && InMem(m, t.i)
    ensures Zipped(InsideMem(m, k, t), k.up.up, InsideFixed(k, t), UpLo(k.up, UpLo(k, lo)), UpHi(k.up, UpHi(k, hi)))
  {
    var g, d := k.up, k.up.side;
    var a, b := Child(t, d), Child(t, k.side);
    var lo1, hi1 := UpLo(k, lo), UpHi(k, hi);
    RelativePlaces(m, k, t, lo, hi);
    ZippedUp(m, k, t, lo, hi);
    RotateZipped(m, g, k.side, b, t.i, a, k.i, k.sib, Red, Red, Red, Red, lo1, hi1);
    var m1 := InsideMem1(m, k, t);
    var p' := Mk(d, Red, k.i, k.sib, a);
    assert Mk(k.side, Red, t.i, b, Mk(k.side, Red, k.i, a, k.sib)) == Mk(d, Red, t.i, p', b);
    ZippedUp(m1, g, Mk(d, Red, t.i, p', b), lo1, hi1);
    RotateZipped(m1, g.up, d, p', t.i, b, g.i, g.sib, Red, Black, Black, Red, UpLo(g, lo1), UpHi(g, hi1));
  }

  // --- Balance ------------------------------------------------------------------

  /** What the loop invariant says about the nodes around the red node. */
  lemma Around2(k: Ctx, t: Tree)
    requires RedHole(k, t) && RedParent(k)
    ensures Bh(k.sib) == Bh(t) == Bh(k.up.sib) && Even(k.sib) && Even(k.up.sib)
    ensures NoRedRed(k.sib) && NoRedRed(k.up.sib) && Col(k.sib) == Black
    ensures EvenCtx(k.up.up, Bh(t) + 1) && NoRedRedCtx(k.up.up, Black)
    ensures Bh(t.l) == Bh(t.r) == Bh(t) && Even(t.l) && Even(t.r) && NoRedRed(t.l) && NoRedRed(t.r)
    ensures Col(t.l) == Black && Col(t.r) == Black
  {
    assert EvenCtx(k.up, Bh(t)) && NoRedRedCtx(k.up, Red);
  }

  lemma FlipBalance(k: Ctx, t: Tree)
    requires RedHole(k, t) && RedParent(k) && Col(k.up.sib) == Red
    ensures RedHole(k.up.up, Flip(k, t))
  {
    Around2(k, t);
    var p := Mk(k.side, Black, k.i, t, k.sib);
    assert Even(p) && NoRedRed(p) && Bh(p) == Bh(t) + 1;
    var u := k.up.sib.(c := Black);
    assert Even(u) && NoRedRed(u) && Bh(u) == Bh(t) + 1;
  }

  lemma OutsideBalance(k: Ctx, t: Tree)
    requires RedHole(k, t) && Outside(k) && Col(k.up.sib) == Black
    ensures Balanced(k.up.up, OutsideFixed(k, t))
  {
    Around2(k, t);
    var g := Mk(k.side, Red, k.up.i, k.sib, k.up.sib);
    assert Even(g) && NoRedRed(g) && Bh(g) == Bh(t);
  }

  lemma InsideBalance(k: Ctx, t: Tree)
    requires RedHole(k, t) && Inside(k, t) && Col(k.up.sib) == Black
    ensures Balanced(k.up.up, InsideFixed(k, t))
  {
    Around2(k, t);
    var d := k.up.side;
    var p := Mk(d, Red, k.i, k.sib, Child(t, d));
    var g := Mk(d, Red, k.up.i, Child(t, k.side), k.up.sib);
    assert Even(p) && NoRedRed(p) && Bh(p) == Bh(t);
    assert Even(g) && NoRedRed(g) && Bh(g) == Bh(t);
  }

  // --- The loop ---------------------------------------------------------------------

  /** Pointers and colours near the hole. */
  lemma NearCells(m: Mem, k: Ctx, t: Tree, lo: int, hi: int)
    requires t.T? && RedParent(k) && Zipped(m, k, t, lo, hi)
    ensures InMem(m, t.i) && InMem(m, k.i) && InMem(m, k.up.i) && t.i != k.i && t.i != k.up.i && k.i != k.up.i
    ensures m[t.i] == Cell(Root(t.l), Root(t.r), k.i, t.c)
    ensures m[k.i].Child(k.side) == t.i && m[k.i].Child(k.side.Other()) == Root(k.sib)
    ensures m[k.i].parent == k.up.i && m[k.i].color == Red
    ensures m[k.up.i].Child(k.up.side) == k.i && m[k.up.i].Child(k.up.side.Other()) == Root(k.up.sib)
    ensures m[k.up.i].parent == Owner(k.up.up) && m[k.up.i].color == Black
    ensures k.sib.T? ==> InMem(m, k.sib.i) && m[k.sib.i].color == k.sib.c && m[k.sib.i].parent == k.i
    ensures k.up.sib.T? ==> InMem(m, k.up.sib.i) && m[k.up.sib.i].color == k.up.sib.c && m[k.up.sib.i].parent == k.up.i
  {
    assert LinkedCtx(m, k.up, k.i, UpLo(k, lo), UpHi(k, hi));
    assert Linked(m, k.sib, k.i, SibLo(k, lo, hi), SibLo(k, lo, hi) + Size(k.sib));
    var sib := SibLo(k.up, UpLo(k, lo), UpHi(k, hi));
    assert Linked(m, k.up.sib, k.up.i, sib, sib + Size(k.up.sib));
  }

  /** Case 1: the parent and the uncle turn black, the grandparent red. */
  method FlipColors(root: RbRoot, uncle: Node, parent: Node, gparent: Node, ghost u: int, ghost p: int, ghost g: int)
    requires IsAt(root, uncle, u) && IsAt(root, parent, p) && IsAt(root, gparent, g) && u != p && u != g && p != g
    requires root.mem[u].parent == g && root.mem[p].parent == g
    modifies root`mem, uncle, parent, gparent
    ensures Shows(root.order, root.mem)
    ensures root.mem == SetColor(SetColor(SetColor(old(root.mem), u, Black), p, Black), g, Red)
  {
    assert root.mem[u].(parent := g, color := Black) == root.mem[u].(color := Black);
    SetParentColor(root, uncle, gparent, Black, u, g);
    assert root.mem[p].(parent := g, color := Black) == root.mem[p].(color := Black);
    SetParentColor(root, parent, gparent, Black, p, g);
    assert root.mem[g].(parent := root.mem[g].parent, color := Red) == root.mem[g].(color := Red);
    SetParentColor(root, gparent, gparent.parent, Red, g, root.mem[g].parent);
  }

  // Cases 2 and 3, as written: `d` is the side of the grandparent `g` on which the
  // parent `p` hangs, `a` and `b` are the inner and outer grandchild that move.

  ghost function Case2Mem(m: Mem, d: Side, p: int, n: int, a: int): (m': Mem)
    requires InMem(m, p) && InMem(m, n)
    ensures |m'| == |m|
  {
    var m1 := m[p := m[p].SetChild(d.Other(), a)];
    var m2 := Moved(m1[n := m1[n].SetChild(d, p)], a, p);
    m2[p := m2[p].(parent := n, color := Red)]
  }

  method Case2Left(root: RbRoot, parent: Node, node: Node, ghost p: int, ghost n: int)
    requires IsAt(root, parent, p) && IsAt(root, node, n) && p != n
    modifies root`mem, parent, node, if node.left == null then {} else {node.left}
    ensures Shows(root.order, root.mem)
    ensures root.mem == old(Case2Mem(root.mem, Left, p, n, root.mem[n].left))
  {
    ghost var a := root.mem[n].left;
    var tmp := node.left;
    SetRight(root, parent, tmp, p, a);
    SetLeft(root, node, parent, n, p);
    if tmp != null { SetParentColor(root, tmp, parent, Black, a, p); }
    SetParentColor(root, parent, node, Red, p, n);
  }

  method Case2Right(root: RbRoot, parent: Node, node: Node, ghost p: int, ghost n: int)
    requires IsAt(root, parent, p) && IsAt(root, node, n) && p != n
    modifies root`mem, parent, node, if node.right == null then {} else {node.right}
    ensures Shows(root.order, root.mem)
    ensures root.mem == old(Case2Mem(root.mem, Right, p, n, root.mem[n].right))
  {
    ghost var a := root.mem[n].right;
    var tmp := node.right;
    SetLeft(root, parent, tmp, p, a);
    SetRight(root, node, parent, n, p);
    if tmp != null { SetParentColor(root, tmp, parent, Black, a, p); }
    SetParentColor(root, parent, node, Red, p, n);
  }

  /** The nodes around the hole are all different. */
  lemma NearApart(m: Mem, k: Ctx, t: Tree, lo: int, hi: int)
    requires t.T? && RedParent(k) && Zipped(m, k, t, lo, hi)
    ensures Root(k.sib) !in {t.i, k.i, k.up.i}
    ensures Root(t.l) !in {t.i, k.i, k.up.i} && Root(t.r) !in {t.i, k.i, k.up.i}
    ensures Root(t.l) == Root(t.r) ==> Root(t.l) == NIL
  {
    assert Linked(m, t.l, t.i, lo, t.i) && Linked(m, t.r, t.i, t.i + 1, hi);
    assert Linked(m, k.sib, k.i, SibLo(k, lo, hi), SibLo(k, lo, hi) + Size(k.sib));
    assert LinkedCtx(m, k.up, k.i, UpLo(k, lo), UpHi(k, hi));
  }

  lemma AboveApart(m: Mem, k: Ctx, t: Tree, lo: int, hi: int)
    requires t.T? && RedParent(k) && Zipped(m, k, t, lo, hi) && k.up.up.In?
    ensures InMem(m, k.up.up.i) && k.up.up.i !in {t.i, k.i, k.up.i, Root(k.sib), Root(t.l), Root(t.r)}
    ensures m[k.up.up.i].Child(k.up.up.side) == k.up.i && m[k.up.up.i].Child(k.up.up.side.Other()) != k.up.i
  {
    var lo1, hi1 := UpLo(k, lo), UpHi(k, hi);
    var lo2, hi2 := UpLo(k.up, lo1), UpHi(k.up, hi1);
    assert LinkedCtx(m, k.up, k.i, lo1, hi1);
    assert LinkedCtx(m, k.up.up, k.up.i, lo2, hi2);
    assert Linked(m, t.l, t.i, lo, t.i) && Linked(m, t.r, t.i, t.i + 1, hi);
    assert Linked(m, k.sib, k.i, SibLo(k, lo, hi), SibLo(k, lo, hi) + Size(k.sib));
    assert Linked(m, k.up.up.sib, k.up.up.i, SibLo(k.up.up, lo2, hi2), SibLo(k.up.up, lo2, hi2) + Size(k.up.up.sib));
  }

  lemma OutsideAsWritten(m: Mem, k: Ctx, t: Tree, lo: int, hi: int)
    requires t.T? && Outside(k) && Zipped(m, k, t, lo, hi) && Col(k.sib) == Black
    ensures InMem(m, k.i) && InMem(m, k.up.i)
    ensures TurnMem(m, k.side, k.up.i, k.i, Root(k.sib)) == OutsideMem(m, k)
  {
    NearCells(m, k, t, lo, hi);
    NearApart(m, k, t, lo, hi);
    if k.up.up.In? { AboveApart(m, k, t, lo, hi); }
    TurnIsRotate(m, k.up.up, k.side, k.up.i, k.i, Root(k.sib));
  }

  lemma Case2IsRotate(m: Mem, k: Ctx, d: Side, p: int, n: int, a: int, m2: Mem, m1: Mem)
    requires InMem(m, p) && InMem(m, n) && p != n && a !in {p, n} && k.In? && InMem(m, k.i) && k.i !in {p, n, a}
    requires InMem(m, a) ==> m[a].color == Black
    requires m2 == Case2Mem(m, d, p, n, a)
    requires m1 == Rotate(m, k, d.Other(), p, n, a, Red, Red)
    ensures |m1| == |m2| && forall j :: InMem(m, j) ==>
      m2[j] == if j == n then m1[n].(parent := m[n].parent, color := m[n].color)
               else if j == k.i then m[j]
               else m1[j]
  {
  }

  /** The first rotation is written without the two pointers between the grandparent
      and the node; the second rotation overwrites both. */
  lemma Case3Overwrites(m1: Mem, m2: Mem, d: Side, g: int, n: int, b: int)
    requires |m1| == |m2| && InMem(m1, g) && InMem(m1, n) && g != n && b !in {g, n}
    requires InMem(m1, m1[g].parent) ==> m1[g].parent !in {g, n, b}
    requires forall j :: InMem(m1, j) && j != n && j != g ==> m2[j] == m1[j]
    requires m2[n] == m1[n].(parent := m2[n].parent, color := m2[n].color)
    requires m2[g] == m1[g].(left := m2[g].left, right := m2[g].right)
    requires m2[g].Child(d.Other()) == m1[g].Child(d.Other())
    ensures TurnMem(m2, d, g, n, b) == TurnMem(m1, d, g, n, b)
  {
    var c1, c2 := TurnMem(m1, d, g, n, b), TurnMem(m2, d, g, n, b);
    forall j | 0 <= j < |m1|
      ensures c1[j] == c2[j]
    {
    }
  }

  lemma InsideAsWritten(m: Mem, k: Ctx, t: Tree, lo: int, hi: int)
    requires Inside(k, t) && t.c == Red && Zipped(m, k, t, lo, hi) && Col(t.l) == Black && Col(t.r) == Black
    ensures InMem(m, t.i) && InMem(m, k.i) && InMem(m, k.up.i)
    ensures var d := k.up.side;
      TurnMem(Case2Mem(m, d, k.i, t.i, Root(Child(t, d))), d, k.up.i, t.i, Root(Child(t, k.side))) == InsideMem(m, k, t)
  {
    var d := k.up.side;
    var p, n, g, a, b := k.i, t.i, k.up.i, Root(Child(t, d)), Root(Child(t, k.side));
    NearCells(m, k, t, lo, hi);
    NearApart(m, k, t, lo, hi);
    ChildCells(m, k, t, lo, hi);
    if k.up.up.In? { AboveApart(m, k, t, lo, hi); }
    var m1, m2 := InsideMem1(m, k, t), Case2Mem(m, d, p, n, a);
    Case2IsRotate(m, k.up, d, p, n, a, m2, m1);
    RotateIsRotated(m, k.up, k.side, p, n, a, Red, Red);
    Case3Overwrites(m1, m2, d, g, n, b);
    TurnIsRotate(m1, k.up.up, d, g, n, b);
  }

  lemma ChildCells(m: Mem, k: Ctx, t: Tree, lo: int, hi: int)
    requires t.T? && Zipped(m, k, t, lo, hi)
    ensures t.l.T? ==> InMem(m, t.l.i) && m[t.l.i].color == t.l.c
    ensures t.r.T? ==> InMem(m, t.r.i) && m[t.r.i].color == t.r.c
  {
    assert Linked(m, t.l, t.i, lo, t.i) && Linked(m, t.r, t.i, t.i + 1, hi);
  }

  // The branch for a parent on the left of the grandparent, and its mirror image.

  ghost function Fixed(k: Ctx, t: Tree): Tree
    requires RedParent(k) && t.T?
  {
    if Outside(k) then OutsideFixed(k, t) else InsideFixed(k, t)
  }

  ghost function FixedMem(m: Mem, k: Ctx, t: Tree): Mem
    requires RedParent(k) && t.T? && InMem(m, t.i) && InMem(m, k.i) && InMem(m, k.up.i)
  {
    if Outside(k) then OutsideMem(m, k) else InsideMem(m, k, t)
  }

  lemma FixedZipped(m: Mem, k: Ctx, t: Tree, lo: int, hi: int)
    requires RedParent(k) && t.T? && t.c == Red && Zipped(m, k, t, lo, hi)
    ensures InMem(m, t.i) && InMem(m, k.i) && InMem(m, k.up.i)
    ensures Zipped(FixedMem(m, k, t), k.up.up, Fixed(k, t), UpLo(k.up, UpLo(k, lo)), UpHi(k.up, UpHi(k, hi)))
  {
    NearCells(m, k, t, lo, hi);
    if Outside(k) { OutsideZipped(m, k, t, lo, hi); } else { InsideZipped(m, k, t, lo, hi); }
  }

  method FixLeft(root: RbRoot, node: Node, parent: Node, gparent: Node, ghost p: int, ghost n: int, ghost g: int,
                 ghost b: int)
    requires IsAt(root, node, n) && IsAt(root, parent, p) && IsAt(root, gparent, g) && p != n && n != g && p != g
    requires root.mem[p].parent == g && root.mem[p].right == b && b !in {p, g}
    requires b == n ==> root.mem[n].left !in {p, n, g} && root.mem[n].right !in {p, n, g}
    modifies root`mem, root`node, root.order
    ensures Shows(root.order, root.mem)
    ensures b != n ==> root.mem == old(TurnMem(root.mem, Left, g, p, b))
    ensures b == n ==>
      root.mem == old(TurnMem(Case2Mem(root.mem, Left, p, n, root.mem[n].left), Left, g, n, root.mem[n].right))
    ensures root.node == if old(gparent.parent) != null then old(root.node) else if b == n then node else parent
  {
    var top := parent;
    var tmp := parent.right;
    if node == tmp {
      Case2Left(root, parent, node, p, n);
      top := node;
      tmp := node.right;
      assert root.mem[g] == old(root.mem[g]);
      TurnLeft(root, gparent, top, tmp, g, n, root.mem[n].right);
    } else {
      TurnLeft(root, gparent, top, tmp, g, p, b);
    }
  }

  method FixRight(root: RbRoot, node: Node, parent: Node, gparent: Node, ghost p: int, ghost n: int, ghost g: int,
                  ghost b: int)
    requires IsAt(root, node, n) && IsAt(root, parent, p) && IsAt(root, gparent, g) && p != n && n != g && p != g
    requires root.mem[p].parent == g && root.mem[p].left == b && b !in {p, g}
    requires b == n ==> root.mem[n].left !in {p, n, g} && root.mem[n].right !in {p, n, g}
    modifies root`mem, root`node, root.order
    ensures Shows(root.order, root.mem)
    ensures b != n ==> root.mem == old(TurnMem(root.mem, Right, g, p, b))
    ensures b == n ==>
      root.mem == old(TurnMem(Case2Mem(root.mem, Right, p, n, root.mem[n].right), Right, g, n, root.mem[n].left))
    ensures root.node == if old(gparent.parent) != null then old(root.node) else if b == n then node else parent
  {
    var top := parent;
    var tmp := parent.left;
    if node == tmp {
      Case2Right(root, parent, node, p, n);
      top := node;
      tmp := node.left;
      assert root.mem[g] == old(root.mem[g]);
      TurnRight(root, gparent, top, tmp, g, n, root.mem[n].left);
    } else {
      TurnRight(root, gparent, top, tmp, g, p, b);
    }
  }

  /** What the two branches need to know, and what their writes amount to. */
  ghost predicate FixPlan(m: Mem, k: Ctx, t: Tree) {
    && RedParent(k) && t.T? && InMem(m, t.i) && InMem(m, k.i) && InMem(m, k.up.i)
    && k.i != t.i && t.i != k.up.i && k.i != k.up.i
    && var d, p, n, g := k.up.side, k.i, t.i, k.up.i;
    && var b := m[p].Child(d.Other());
    && (m[g].right == p <==> d == Right) && m[p].parent == g
    && b !in {p, g} && m[n].left !in {p, n, g} && m[n].right !in {p, n, g}
    && (b != n ==> FixedMem(m, k, t) == TurnMem(m, d, g, p, b))
    && (b == n ==> FixedMem(m, k, t) == TurnMem(Case2Mem(m, d, p, n, m[n].Child(d)), d, g, n, m[n].Child(d.Other())))
    && m[g].parent == Owner(k.up.up)
    && Root(Fixed(k, t)) == (if b == n then n else p)
    && (k.up.up.Top? ==> RootOf(k.up.up, Root(Fixed(k, t))) == Root(Fixed(k, t)))
    && (k.up.up.In? ==> InMem(m, k.up.up.i) && RootOf(k.up.up, Root(Fixed(k, t))) == RootOf(k, t.i))
  }

  lemma FixPlanned(m: Mem, k: Ctx, t: Tree, lo: int, hi: int)
    requires RedHole(k, t) && RedParent(k) && Zipped(m, k, t, lo, hi)
    ensures FixPlan(m, k, t)
  {
    NearCells(m, k, t, lo, hi);
    NearApart(m, k, t, lo, hi);
    RelativePlaces(m, k, t, lo, hi);
    Around2(k, t);
    if Outside(k) { OutsideAsWritten(m, k, t, lo, hi); } else { InsideAsWritten(m, k, t, lo, hi); }
    if k.up.up.In? { AboveApart(m, k, t, lo, hi); }
    assert RootOf(k, t.i) == RootOf(k.up, k.i) == RootOf(k.up.up, k.up.i);
  }

  /** Cases 2 and 3 on the heap. */
  method FixRotate(root: RbRoot, node: Node, parent: Node, gparent: Node, ghost k: Ctx, ghost t: Tree)
    requires FixPlan(root.mem, k, t) && root.node == Nd(root.order, RootOf(k, t.i))
    requires IsAt(root, node, t.i) && IsAt(root, parent, k.i) && IsAt(root, gparent, k.up.i)
    modifies root`mem, root`node, root.order
    ensures Shows(root.order, root.mem) && root.mem == old(FixedMem(root.mem, k, t))
    ensures root.node == Nd(root.order, RootOf(k.up.up, Root(Fixed(k, t))))
  {
    assert parent == gparent.right <==> root.mem[k.up.i].right == k.i;
    if parent != gparent.right {
      FixLeft(root, node, parent, gparent, k.i, t.i, k.up.i, root.mem[k.i].right);
    } else {
      FixRight(root, node, parent, gparent, k.i, t.i, k.up.i, root.mem[k.i].left);
    }
  }

  ghost predicate FlipPlan(m: Mem, k: Ctx, t: Tree) {
    && RedParent(k) && t.T? && k.up.sib.T? && InMem(m, k.i) && InMem(m, k.up.i) && InMem(m, k.up.sib.i)
    && k.i != k.up.i && k.i != k.up.sib.i && k.up.i != k.up.sib.i
    && m[k.i].parent == k.up.i && m[k.up.sib.i].parent == k.up.i
    && RootOf(k.up.up, Root(Flip(k, t))) == RootOf(k, t.i)
  }

  lemma FlipPlanned(m: Mem, k: Ctx, t: Tree, lo: int, hi: int)
    requires RedHole(k, t) && RedParent(k) && Col(k.up.sib) == Red && Zipped(m, k, t, lo, hi)
    ensures FlipPlan(m, k, t)
  {
    NearCells(m, k, t, lo, hi);
    RelativePlaces(m, k, t, lo, hi);
    assert RootOf(k, t.i) == RootOf(k.up, k.i) == RootOf(k.up.up, k.up.i);
  }

  method Flipping(root: RbRoot, uncle: Node, parent: Node, gparent: Node, ghost k: Ctx, ghost t: Tree, ghost lo: int,
                  ghost hi: int)
    requires At(root, k, t, lo, hi) && RedHole(k, t) && RedParent(k) && Col(k.up.sib) == Red
    requires uncle == Nd(root.order, k.up.sib.i) && parent == Nd(root.order, k.i) && gparent == Nd(root.order, k.up.i)
    modifies root`mem, root.order
    ensures At(root, k.up.up, Flip(k, t), UpLo(k.up, UpLo(k, lo)), UpHi(k.up, UpHi(k, hi)))
    ensures RedHole(k.up.up, Flip(k, t))
  {
    FlipPlanned(root.mem, k, t, lo, hi);
    FlipZipped(root.mem, k, t, lo, hi);
    FlipBalance(k, t);
    FlipColors(root, uncle, parent, gparent, k.up.sib.i, k.i, k.up.i);
  }

  method Fixing(root: RbRoot, node: Node, parent: Node, gparent: Node, ghost k: Ctx, ghost t: Tree, ghost lo: int,
                ghost hi: int)
    requires At(root, k, t, lo, hi) && RedHole(k, t) && RedParent(k) && Col(k.up.sib) == Black
    requires node == Nd(root.order, t.i) && parent == Nd(root.order, k.i) && gparent == Nd(root.order, k.up.i)
    modifies root`mem, root`node, root.order
    ensures At(root, k.up.up, Fixed(k, t), UpLo(k.up, UpLo(k, lo)), UpHi(k.up, UpHi(k, hi)))
    ensures Balanced(k.up.up, Fixed(k, t))
  {
    FixPlanned(root.mem, k, t, lo, hi);
    FixedZipped(root.mem, k, t, lo, hi);
    if Outside(k) { OutsideBalance(k, t); } else { InsideBalance(k, t); }
    FixRotate(root, node, parent, gparent, k, t);
  }

  /** The uncle, and whether the colours can be flipped. */
  lemma Uncle(root: RbRoot, k: Ctx, t: Tree, lo: int, hi: int)
    requires At(root, k, t, lo, hi) && RedHole(k, t) && RedParent(k)
    ensures InMem(root.mem, k.up.i) && InMem(root.mem, k.i)
    ensures var g, u := root.order[k.up.i], Nd(root.order, Root(k.up.sib));
      && (root.order[k.i] == g.right <==> k.up.side == Right)
      && u == (if k.up.side == Left then g.right else g.left)
      && (k.up.sib.T? <==> u != null) && (u != null ==> u.color == Col(k.up.sib))
      && root.order[k.i].parent == g && g.parent == Nd(root.order, Owner(k.up.up))
  {
    NearCells(root.mem, k, t, lo, hi);
    RelativePlaces(root.mem, k, t, lo, hi);
  }

  /** The parent's colour decides whether there is anything to fix. */
  lemma Parent(root: RbRoot, k: Ctx, t: Tree, lo: int, hi: int)
    requires At(root, k, t, lo, hi) && RedHole(k, t)
    ensures var p := Nd(root.order, Owner(k));
      && (p == null <==> k.Top?)
      && (p != null && p.color == Black ==> Balanced(k, t))
      && (p != null && p.color == Red ==> RedParent(k))
  {
    assert k.In? ==> NoRedRedCtx(k.up, k.c);
  }

  lemma PaintRoot(m: Mem, k: Ctx, t: Tree, lo: int, hi: int)
    requires Zipped(m, k, t, lo, hi) && t.T? && k.Top?
    ensures Zipped(SetColor(m, t.i, Black), k, t.(c := Black), lo, hi)
    ensures m[t.i].(parent := NIL, color := Black) == m[t.i].(color := Black)
  {
    PaintZipped(m, k, t, t.i, Black, lo, hi);
    assert Paint(t, t.i, Black) == t.(c := Black);
  }

  /** No parent, or a black one: we are done. */
  method StopHere(root: RbRoot, node: Node, parent: Node?, ghost k: Ctx, ghost t: Tree, ghost lo: int,
                  ghost hi: int) returns (done: bool)
    requires At(root, k, t, lo, hi) && RedHole(k, t)
    requires node == Nd(root.order, t.i) && parent == Nd(root.order, Owner(k))
    modifies root`mem, root`tree, node
    ensures done ==> root.Valid() && IsRb(root.tree)
    ensures !done ==> At(root, k, t, lo, hi) && RedParent(k)
  {
    Parent(root, k, t, lo, hi);
    if parent == null {
      PaintRoot(root.mem, k, t, lo, hi);
      SetParentColor(root, node, null, Black, t.i, NIL);
      Settle(root, k, t.(c := Black), lo, hi);
      return true;
    } else if parent.color == Black {
      Settle(root, k, t, lo, hi);
      return true;
    }
    return false;
  }

  /** A red parent: flip colours and go on at the grandparent, or rotate and be done. */
  method FlipOrFix(root: RbRoot, node: Node, parent: Node, ghost k: Ctx, ghost t: Tree, ghost lo: int,
                   ghost hi: int) returns (next: Node?)
    requires At(root, k, t, lo, hi) && RedHole(k, t) && RedParent(k)
    requires node == Nd(root.order, t.i) && parent == Nd(root.order, k.i)
    modifies root`mem, root`node, root`tree, root.order
    ensures next == null ==> root.Valid() && IsRb(root.tree)
    ensures next != null ==> Col(k.up.sib) == Red && next == Nd(root.order, k.up.i) && RedHole(k.up.up, Flip(k, t))
    ensures next != null ==> At(root, k.up.up, Flip(k, t), UpLo(k.up, UpLo(k, lo)), UpHi(k.up, UpHi(k, hi)))
  {
    Uncle(root, k, t, lo, hi);
    var gparent := parent.parent;
    var tmp := gparent.right;
    if parent == tmp { tmp := gparent.left; }
    if tmp != null && tmp.color == Red {
      Flipping(root, tmp, parent, gparent, k, t, lo, hi);
      next := gparent;
    } else {
      Fixing(root, node, parent, gparent, k, t, lo, hi);
      Settle(root, k.up.up, Fixed(k, t), UpLo(k.up, UpLo(k, lo)), UpHi(k.up, UpHi(k, hi)));
      next := null;
    }
  }

  /** `rb_insert_color`: a red node has just been linked in as a leaf of a red-black
      tree; the tree is made a red-black tree again, keeping the nodes in order. */
  method InsertColor(root: RbRoot, inserted: Node, ghost k0: Ctx, ghost i: int)
    requires At(root, k0, T(Leaf, Red, i, Leaf), i, i + 1) && IsRb(Plug(k0, Leaf))
    requires inserted == Nd(root.order, i)
    modifies root`mem, root`node, root`tree, root.order
    ensures root.Valid() && IsRb(root.tree)
  {
    var node := inserted;
    ghost var k, t, lo, hi := k0, T(Leaf, Red, i, Leaf), i, i + 1;
    RbPlug(k0, Leaf);
    while true
      invariant At(root, k, t, lo, hi) && RedHole(k, t) && node == Nd(root.order, t.i)
      decreases k
    {
      var parent := node.parent;
      var done := StopHere(root, node, parent, k, t, lo, hi);
      if done { return; }
      var next := FlipOrFix(root, node, parent, k, t, lo, hi);
      if next == null { return; }
      node := next;
      lo, hi := UpLo(k.up, UpLo(k, lo)), UpHi(k.up, UpHi(k, hi));
      k, t := k.up.up, Flip(k, t);
    }
  }
}
