/** Rebalancing after an erasure (`____rb_erase_color`). */
module RbTreeErase {
  import opened RbTreeModel
  import opened RbTreeHeap

  // The hole of `k` holds `t`, which is one black node short; `k.i` is the parent,
  // `k.sib` the sibling's subtree. The near side is that of the hole.

  /** The loop invariant. */
  ghost predicate Short(k: Ctx, t: Tree) {
    && k.In? && Even(t) && NoRedRed(t) && Col(t) == Black
    && EvenCtx(k, Bh(t) + 1) && NoRedRedCtx(k, Black)
  }

  ghost function Near(k: Ctx): Tree
    requires k.In? && k.sib.T?
  {
    if k.side == Left then k.sib.l else k.sib.r
  }

  ghost function Far(k: Ctx): Tree
    requires k.In? && k.sib.T?
  {
    if k.side == Left then k.sib.r else k.sib.l
  }

  /** Where the parent, the sibling and the nephews are. */
  lemma Places(m: Mem, k: Ctx, t: Tree, lo: int, hi: int)
    requires k.In? && k.sib.T? && Zipped(m, k, t, lo, hi)
    ensures InMem(m, k.i) && InMem(m, k.sib.i)
    ensures Near(k).T? ==> InMem(m, Near(k).i)
    ensures Far(k).T? ==> InMem(m, Far(k).i)
    ensures Ordered(k.side, k.i, k.sib.i)
    ensures Near(k).T? ==> Ordered(k.side, k.i, Near(k).i) && Ordered(k.side, Near(k).i, k.sib.i)
    ensures Far(k).T? ==> Ordered(k.side, k.sib.i, Far(k).i)
    ensures t.T? ==> Ordered(k.side, t.i, k.i)
    ensures UpLo(k, lo) <= k.i < UpHi(k, hi) && UpLo(k, lo) <= k.sib.i < UpHi(k, hi)
    ensures Far(k).T? ==> UpLo(k, lo) <= Far(k).i < UpHi(k, hi)
  {
    var slo := SibLo(k, lo, hi);
    assert Linked(m, k.sib, k.i, slo, slo + Size(k.sib));
    assert Linked(m, k.sib.l, k.sib.i, slo, k.sib.i) && Linked(m, k.sib.r, k.sib.i, k.sib.i + 1, slo + Size(k.sib));
  }

  /** `x` comes before `y`, seen from side `d`. */
  ghost predicate Ordered(d: Side, x: int, y: int) { if d == Left then x < y else y < x }

  // --- Case 1: a red sibling becomes the grandparent ---------------------------------

  ghost function Case1(k: Ctx): Ctx
    requires k.In? && k.sib.T?
  {
    In(k.side, Red, k.i, Near(k), In(k.side, Black, k.sib.i, Far(k), k.up))
  }

  ghost function Case1Mem(m: Mem, k: Ctx): Mem
    requires k.In? && k.sib.T? && InMem(m, k.i) && InMem(m, k.sib.i)
  {
    Rotate(m, k.up, k.side.Other(), k.i, k.sib.i, Root(Near(k)), Black, Red)
  }

  lemma Case1Zipped(m: Mem, k: Ctx, t: Tree, lo: int, hi: int)
    requires k.In? && k.sib.T? && Zipped(m, k, t, lo, hi)
    ensures InMem(m, k.i) && InMem(m, k.sib.i) && Zipped(Case1Mem(m, k), Case1(k), t, lo, hi)
  {
    var d' := k.side.Other();
    var ulo, uhi := UpLo(k, lo), UpHi(k, hi);
    ZippedUp(m, k, t, lo, hi);
    RotateZipped(m, k.up, d', Far(k), k.sib.i, Near(k), k.i, t, k.sib.c, k.c, Black, Red, ulo, uhi);
    var k1 := Case1(k);
    var p := Mk(d', Red, k.i, Near(k), t);
    assert Around(k1, t) == p && Around(k1.up, p) == Mk(d', Black, k.sib.i, Far(k), p);
    ZippedDown(Case1Mem(m, k), k1.up, p, ulo, uhi);
    ZippedDown(Case1Mem(m, k), k1, t, DownLo(k.side, k.sib.i, ulo), DownHi(k.side, k.sib.i, uhi));
  }

  lemma Case1Balance(k: Ctx, t: Tree)
    requires Short(k, t) && Col(k.sib) == Red
    ensures Short(Case1(k), t) && k.c == Black && Col(Near(k)) == Black && Near(k).T?
  {
    assert EvenCtx(k.up, Bh(t) + 2);
  }

  // --- Case 2: a black sibling with black children turns red --------------------------

  /** The parent's subtree, with parent colour `c`. */
  ghost function Case2(k: Ctx, t: Tree, c: Color): Tree
    requires k.In? && k.sib.T?
  {
    Mk(k.side, c, k.i, t, k.sib.(c := Red))
  }

  ghost function Case2Mem(m: Mem, k: Ctx, c: Color): Mem
    requires k.In? && k.sib.T? && InMem(m, k.i) && InMem(m, k.sib.i)
  {
    SetColor(SetColor(m, k.sib.i, Red), k.i, c)
  }

  lemma Case2Balance(k: Ctx, t: Tree)
    requires Short(k, t) && k.sib.T? && Col(k.sib) == Black && Col(Near(k)) == Black && Col(Far(k)) == Black
    ensures k.c == Red || k.up.Top? ==> Balanced(k.up, Case2(k, t, Black))
    ensures k.c == Black && k.up.In? ==> Short(k.up, Case2(k, t, Black))
  {
    assert Even(k.sib.(c := Red)) && NoRedRed(k.sib.(c := Red)) && Bh(k.sib.(c := Red)) == Bh(t);
    assert EvenCtx(k.up, Bh(t) + 1 + B(k.c)) && NoRedRedCtx(k.up, k.c);
  }

  // --- Case 4: a red far nephew --------------------------------------------------------

  ghost function Case4(k: Ctx, t: Tree): Tree
    requires k.In? && k.sib.T? && Far(k).T?
  {
    Mk(k.side, k.c, k.sib.i, Mk(k.side, Black, k.i, t, Near(k)), Far(k).(c := Black))
  }

  ghost function Case4Mem(m: Mem, k: Ctx): Mem
    requires k.In? && k.sib.T? && Far(k).T? && InMem(m, k.i) && InMem(m, k.sib.i) && InMem(m, Far(k).i)
  {
    Rotate(SetColor(m, Far(k).i, Black), k.up, k.side.Other(), k.i, k.sib.i, Root(Near(k)), k.c, Black)
  }

  lemma Case4Balance(k: Ctx, t: Tree)
    requires Short(k, t) && k.sib.T? && Col(k.sib) == Black && Col(Far(k)) == Red
    ensures Balanced(k.up, Case4(k, t))
  {
    assert EvenCtx(k.up, Bh(t) + 1 + B(k.c)) && NoRedRedCtx(k.up, k.c);
    var p, f := Mk(k.side, Black, k.i, t, Near(k)), Far(k).(c := Black);
    assert Even(p) && NoRedRed(p) && Bh(p) == Bh(t) + 1;
    assert Even(Far(k)) && NoRedRed(Far(k));
    assert Even(f) && NoRedRed(f) && Bh(f) == Bh(t) + 1;
  }

  // --- Case 3: a red near nephew is rotated over the sibling, then case 4 --------------

  /** The children of the near nephew, nearest first. */
  ghost function NearNear(k: Ctx): Tree
    requires k.In? && k.sib.T? && Near(k).T?
  {
    if k.side == Left then Near(k).l else Near(k).r
  }

  ghost function NearFar(k: Ctx): Tree
    requires k.In? && k.sib.T? && Near(k).T?
  {
    if k.side == Left then Near(k).r else Near(k).l
  }

  ghost function Case34(k: Ctx, t: Tree): Tree
    requires k.In? && k.sib.T? && Near(k).T?
  {
    var d := k.side;
    Mk(d, k.c, Near(k).i, Mk(d, Black, k.i, t, NearNear(k)), Mk(d, Black, k.sib.i, NearFar(k), Far(k)))
  }

  ghost function Case3Mem(m: Mem, k: Ctx, t: Tree): (m': Mem)
    requires k.In? && k.sib.T? && Near(k).T? && InMem(m, k.sib.i) && InMem(m, Near(k).i)
    ensures |m'| == |m|
  {
    Rotate(m, In(k.side.Other(), k.c, k.i, t, k.up), k.side, k.sib.i, Near(k).i, Root(NearFar(k)), Red, Black)
  }

  ghost function Case34Mem(m: Mem, k: Ctx, t: Tree): Mem
    requires k.In? && k.sib.T? && Near(k).T? && InMem(m, k.i) && InMem(m, k.sib.i) && InMem(m, Near(k).i)
  {
    Rotate(Case3Mem(m, k, t), k.up, k.side.Other(), k.i, Near(k).i, Root(NearNear(k)), k.c, Black)
  }

  lemma Case34Balance(k: Ctx, t: Tree)
    requires Short(k, t) && k.sib.T? && Col(k.sib) == Black && Col(Near(k)) == Red && Col(Far(k)) == Black
    ensures Balanced(k.up, Case34(k, t)) && Col(NearFar(k)) == Black
  {
    assert EvenCtx(k.up, Bh(t) + 1 + B(k.c)) && NoRedRedCtx(k.up, k.c);
    var p, s := Mk(k.side, Black, k.i, t, NearNear(k)), Mk(k.side, Black, k.sib.i, NearFar(k), Far(k));
    assert Even(Near(k)) && NoRedRed(Near(k));
    assert Even(p) && NoRedRed(p) && Bh(p) == Bh(t) + 1;
    assert Even(s) && NoRedRed(s) && Bh(s) == Bh(t) + 1;
  }

  // --- What the cases do to memory --------------------------------------------------

  lemma Case2Zipped(m: Mem, k: Ctx, t: Tree, c: Color, lo: int, hi: int)
    requires k.In? && k.sib.T? && Zipped(m, k, t, lo, hi)
    ensures InMem(m, k.i) && InMem(m, k.sib.i)
    ensures Zipped(Case2Mem(m, k, c), k.up, Case2(k, t, c), UpLo(k, lo), UpHi(k, hi))
  {
    var w, ulo, uhi := Around(k, t), UpLo(k, lo), UpHi(k, hi);
    Places(m, k, t, lo, hi);
    ZippedUp(m, k, t, lo, hi);
    PaintZipped(m, k.up, w, k.sib.i, Red, ulo, uhi);
    PaintZipped(SetColor(m, k.sib.i, Red), k.up, Paint(w, k.sib.i, Red), k.i, c, ulo, uhi);
    Case2Paints(k, t, c);
  }

  lemma Case2Paints(k: Ctx, t: Tree, c: Color)
    requires k.In? && k.sib.T? && Ordered(k.side, k.i, k.sib.i)
    ensures Paint(Paint(Around(k, t), k.sib.i, Red), k.i, c) == Case2(k, t, c)
  {
    assert Paint(k.sib, k.sib.i, Red) == k.sib.(c := Red);
    assert Paint(Around(k, t), k.sib.i, Red) == Mk(k.side, k.c, k.i, t, k.sib.(c := Red));
  }

  lemma Case4Zipped(m: Mem, k: Ctx, t: Tree, lo: int, hi: int)
    requires k.In? && k.sib.T? && Far(k).T? && Zipped(m, k, t, lo, hi)
    ensures InMem(m, k.i) && InMem(m, k.sib.i) && InMem(m, Far(k).i)
    ensures Zipped(Case4Mem(m, k), k.up, Case4(k, t), UpLo(k, lo), UpHi(k, hi))
  {
    var ulo, uhi, d' := UpLo(k, lo), UpHi(k, hi), k.side.Other();
    Places(m, k, t, lo, hi);
    ZippedUp(m, k, t, lo, hi);
    PaintZipped(m, k.up, Around(k, t), Far(k).i, Black, ulo, uhi);
    Case4Paints(k, t);
    RotateZipped(SetColor(m, Far(k).i, Black), k.up, d', Far(k).(c := Black), k.sib.i, Near(k), k.i, t, k.sib.c, k.c,
      k.c, Black, ulo, uhi);
    assert Case4(k, t) == Mk(d', k.c, k.sib.i, Far(k).(c := Black), Mk(d', Black, k.i, Near(k), t));
  }

  lemma Case4Paints(k: Ctx, t: Tree)
    requires k.In? && k.sib.T? && Far(k).T?
    requires Ordered(k.side, k.i, k.sib.i) && Ordered(k.side, k.sib.i, Far(k).i)
    ensures Paint(Around(k, t), Far(k).i, Black) ==
      Mk(k.side.Other(), k.c, k.i, Mk(k.side.Other(), k.sib.c, k.sib.i, Far(k).(c := Black), Near(k)), t)
  {
    assert Paint(Far(k), Far(k).i, Black) == Far(k).(c := Black);
    assert Paint(k.sib, Far(k).i, Black) == Mk(k.side, k.sib.c, k.sib.i, Near(k), Far(k).(c := Black));
  }

  /** The parent's subtree after the rotation at the sibling. */
  ghost function Case3(k: Ctx, t: Tree): Tree
    requires k.In? && k.sib.T? && Near(k).T?
  {
    var d' := k.side.Other();
    var s' := Mk(k.side, Black, k.sib.i, NearFar(k), Far(k));
    Mk(d', k.c, k.i, Mk(d', Red, Near(k).i, s', NearNear(k)), t)
  }

  lemma Case3Zipped(m: Mem, k: Ctx, t: Tree, lo: int, hi: int)
    requires k.In? && k.sib.T? && Near(k).T? && Zipped(m, k, t, lo, hi)
    ensures InMem(m, k.i) && InMem(m, k.sib.i) && InMem(m, Near(k).i)
    ensures Zipped(Case3Mem(m, k, t), k.up, Case3(k, t), UpLo(k, lo), UpHi(k, hi))
  {
    var d, d', n := k.side, k.side.Other(), Near(k);
    var ulo, uhi := UpLo(k, lo), UpHi(k, hi);
    var ks := In(d', k.c, k.i, t, k.up);
    LinkedSize(m, t, k.i, lo, hi);
    Places(m, k, t, lo, hi);
    ZippedUp(m, k, t, lo, hi);
    assert Around(ks, k.sib) == Around(k, t);
    ZippedDown(m, ks, k.sib, ulo, uhi);
    var slo, shi := DownLo(d', k.i, ulo), DownHi(d', k.i, uhi);
    assert k.sib == Mk(d, k.sib.c, k.sib.i, Mk(d, n.c, n.i, NearNear(k), NearFar(k)), Far(k));
    RotateZipped(m, ks, d, NearNear(k), n.i, NearFar(k), k.sib.i, Far(k), n.c, k.sib.c, Red, Black, slo, shi);
    ZippedUp(Case3Mem(m, k, t), ks, Mk(d, Red, n.i, NearNear(k), Mk(d, Black, k.sib.i, NearFar(k), Far(k))), slo, shi);
  }

  lemma Case34Zipped(m: Mem, k: Ctx, t: Tree, lo: int, hi: int)
    requires k.In? && k.sib.T? && Near(k).T? && Zipped(m, k, t, lo, hi)
    ensures InMem(m, k.i) && InMem(m, k.sib.i) && InMem(m, Near(k).i)
    ensures Zipped(Case34Mem(m, k, t), k.up, Case34(k, t), UpLo(k, lo), UpHi(k, hi))
  {
    var d', n := k.side.Other(), Near(k);
    Case3Zipped(m, k, t, lo, hi);
    var s' := Mk(k.side, Black, k.sib.i, NearFar(k), Far(k));
    RotateZipped(Case3Mem(m, k, t), k.up, d', s', n.i, NearNear(k), k.i, t, Red, k.c, k.c, Black, UpLo(k, lo),
      UpHi(k, hi));
    assert Case34(k, t) == Mk(d', k.c, n.i, s', Mk(d', Black, k.i, NearNear(k), t));
  }

  // --- The pointer writes ---------------------------------------------------------------
  // `d` is the side of the parent `p` on which the hole is, `s` the sibling, `b` the
  // near nephew that changes hands, `f` the far nephew.

  ghost function RiseMem(m: Mem, d: Side, p: int, s: int, b: int, f: int): (m': Mem)
    requires InMem(m, p) && InMem(m, s) && InMem(m, f)
    ensures |m'| == |m|
  {
    var m1 := m[p := m[p].SetChild(d.Other(), b)];
    var m2 := m1[s := m1[s].SetChild(d, p)];
    var m3 := m2[f := m2[f].(parent := s, color := Black)];
    RotateSetMem(SetParent(m3, b, p), p, s, Black)
  }

  ghost function SwingMem(m: Mem, d: Side, p: int, s: int, n: int, b: int): (m': Mem)
    requires InMem(m, p) && InMem(m, s) && InMem(m, n)
    ensures |m'| == |m|
  {
    var m1 := m[s := m[s].SetChild(d, b)];
    var m2 := m1[n := m1[n].SetChild(d.Other(), s)];
    Moved(m2[p := m2[p].SetChild(d.Other(), n)], b, s)
  }

  lemma RiseCells(m: Mem, d: Side, p: int, s: int, b: int, f: int, q: int, e: Side)
    requires InMem(m, p) && InMem(m, s) && InMem(m, f) && p != s && f !in {p, s} && b !in {p, s, f}
    requires m[p].parent == q && (InMem(m, q) ==> q !in {p, s, b, f} && (m[q].left == p <==> e == Left))
    ensures var m' := RiseMem(m, d, p, s, b, f);
      && m'[p] == m[p].SetChild(d.Other(), b).(parent := s, color := Black)
      && m'[s] == m[s].SetChild(d, p).(parent := q, color := m[p].color)
      && m'[f] == m[f].(parent := s, color := Black)
      && (InMem(m, b) ==> m'[b] == m[b].(parent := p))
      && (InMem(m, q) ==> m'[q] == m[q].SetChild(e, s))
      && forall j :: InMem(m, j) && j !in {p, s, b, f, q} ==> m'[j] == m[j]
  {
  }

  lemma RiseIsRotate(m: Mem, up: Ctx, d: Side, p: int, s: int, b: int, f: int)
    requires InMem(m, p) && InMem(m, s) && InMem(m, f) && p != s && f !in {p, s} && b !in {p, s, f}
    requires m[p].parent == Owner(up) && m[f].parent == s
    requires up.In? ==> InMem(m, up.i) && up.i !in {p, s, b, f}
    requires up.In? ==> m[up.i].Child(up.side) == p && m[up.i].Child(up.side.Other()) != p
    ensures RiseMem(m, d, p, s, b, f) == Rotate(SetColor(m, f, Black), up, d.Other(), p, s, b, m[p].color, Black)
  {
    RiseCells(m, d, p, s, b, f, Owner(up), if up.In? then up.side else Left);
    RotateIsRotated(SetColor(m, f, Black), up, d.Other(), p, s, b, m[p].color, Black);
  }

  /** Case 3 leaves two parent pointers stale; case 4 overwrites both. */
  lemma RiseOverwrites(m1: Mem, m2: Mem, d: Side, p: int, n: int, b: int, s: int)
    requires |m1| == |m2| && InMem(m1, p) && InMem(m1, n) && InMem(m1, s) && p != n && s !in {p, n} && b !in {p, s, n}
    requires InMem(m1, m1[p].parent) ==> m1[p].parent !in {p, n, s, b}
    requires forall j :: InMem(m1, j) && j != n && j != s ==> m2[j] == m1[j]
    requires m2[n] == m1[n].(parent := m2[n].parent) && m2[s] == m1[s].(parent := m2[s].parent)
    ensures RiseMem(m2, d, p, n, b, s) == RiseMem(m1, d, p, n, b, s)
  {
    var q := m1[p].parent;
    var e := if InMem(m1, q) && m1[q].left == p then Left else Right;
    RiseCells(m1, d, p, n, b, s, q, e);
    RiseCells(m2, d, p, n, b, s, q, e);
  }

  lemma SwingIsRotate(m: Mem, ks: Ctx, d: Side, p: int, s: int, n: int, b: int, m1: Mem, m2: Mem)
    requires InMem(m, p) && InMem(m, s) && InMem(m, n) && p != s && n !in {p, s} && b !in {p, s, n}
    requires ks.In? && ks.i == p && ks.side == d.Other()
    requires m[n].color == Red && m[s].color == Black && (InMem(m, b) ==> m[b].color == Black)
    requires m1 == Rotate(m, ks, d, s, n, b, Red, Black)
    requires m2 == SwingMem(m, d, p, s, n, b)
    ensures |m1| == |m2| && (forall j :: InMem(m, j) && j != n && j != s ==> m2[j] == m1[j])
    ensures m2[n] == m1[n].(parent := m[n].parent) && m2[s] == m1[s].(parent := m[s].parent)
    ensures m1[s].parent == n && m1[s].color == Black
  {
  }

  method RiseLeft(root: RbRoot, parent: Node, sibling: Node, far: Node, ghost p: int, ghost s: int, ghost b: int,
                  ghost f: int)
    requires IsAt(root, parent, p) && IsAt(root, sibling, s) && IsAt(root, far, f) && root.mem[s].left == b
    requires p != s && f !in {p, s} && b !in {p, s, f}
    modifies root`mem, root`node, root.order
    ensures Shows(root.order, root.mem) && root.mem == old(RiseMem(root.mem, Left, p, s, b, f))
    ensures root.node == if old(parent.parent) == null then sibling else old(root.node)
  {
    ghost var m := root.mem;
    var tmp2 := sibling.left;
    SetRight(root, parent, tmp2, p, b);
    SetLeft(root, sibling, parent, s, p);
    SetParentColor(root, far, sibling, Black, f, s);
    ghost var m3 := root.mem;
    if tmp2 != null {
      assert m3[b].(parent := p, color := tmp2.color) == m3[b].(parent := p);
      SetParentColor(root, tmp2, parent, tmp2.color, b, p);
    }
    assert root.mem == SetParent(m3, b, p);
    assert root.mem[p].parent == m[p].parent;
    assert parent.parent == old(parent.parent);
    RotateSetParents(root, parent, sibling, Black, p, s);
  }

  method RiseRight(root: RbRoot, parent: Node, sibling: Node, far: Node, ghost p: int, ghost s: int, ghost b: int,
                   ghost f: int)
    requires IsAt(root, parent, p) && IsAt(root, sibling, s) && IsAt(root, far, f) && root.mem[s].right == b
    requires p != s && f !in {p, s} && b !in {p, s, f}
    modifies root`mem, root`node, root.order
    ensures Shows(root.order, root.mem) && root.mem == old(RiseMem(root.mem, Right, p, s, b, f))
    ensures root.node == if old(parent.parent) == null then sibling else old(root.node)
  {
    ghost var m := root.mem;
    var tmp2 := sibling.right;
    SetLeft(root, parent, tmp2, p, b);
    SetRight(root, sibling, parent, s, p);
    SetParentColor(root, far, sibling, Black, f, s);
    ghost var m3 := root.mem;
    if tmp2 != null {
      assert m3[b].(parent := p, color := tmp2.color) == m3[b].(parent := p);
      SetParentColor(root, tmp2, parent, tmp2.color, b, p);
    }
    assert root.mem == SetParent(m3, b, p);
    assert root.mem[p].parent == m[p].parent;
    assert parent.parent == old(parent.parent);
    RotateSetParents(root, parent, sibling, Black, p, s);
  }

  method SwingLeft(root: RbRoot, parent: Node, sibling: Node, near: Node, ghost p: int, ghost s: int, ghost n: int)
    requires IsAt(root, parent, p) && IsAt(root, sibling, s) && IsAt(root, near, n)
    modifies root`mem, root.order
    ensures root.node == old(root.node) && Shows(root.order, root.mem)
    ensures root.mem == old(SwingMem(root.mem, Left, p, s, n, root.mem[n].right))
  {
    ghost var b := root.mem[n].right;
    var tmp1 := near.right;
    SetLeft(root, sibling, tmp1, s, b);
    SetRight(root, near, sibling, n, s);
    SetRight(root, parent, near, p, n);
    if tmp1 != null { SetParentColor(root, tmp1, sibling, Black, b, s); }
  }

  method SwingRight(root: RbRoot, parent: Node, sibling: Node, near: Node, ghost p: int, ghost s: int, ghost n: int)
    requires IsAt(root, parent, p) && IsAt(root, sibling, s) && IsAt(root, near, n)
    modifies root`mem, root.order
    ensures root.node == old(root.node) && Shows(root.order, root.mem)
    ensures root.mem == old(SwingMem(root.mem, Right, p, s, n, root.mem[n].left))
  {
    ghost var b := root.mem[n].left;
    var tmp1 := near.left;
    SetRight(root, sibling, tmp1, s, b);
    SetLeft(root, near, sibling, n, s);
    SetLeft(root, parent, near, p, n);
    if tmp1 != null { SetParentColor(root, tmp1, sibling, Black, b, s); }
  }

  // --- One round of the loop ---------------------------------------------------------------

  /** Pointers and colours near the hole. */
  lemma SibCells(m: Mem, k: Ctx, t: Tree, lo: int, hi: int)
    requires k.In? && k.sib.T? && Zipped(m, k, t, lo, hi)
    ensures InMem(m, k.i) && InMem(m, k.sib.i)
    ensures m[k.i].Child(k.side) == Root(t) && m[k.i].Child(k.side.Other()) == k.sib.i
    ensures m[k.i].parent == Owner(k.up) && m[k.i].color == k.c
    ensures m[k.sib.i] == Cell(Root(k.sib.l), Root(k.sib.r), k.i, k.sib.c)
    ensures Near(k).T? ==>
      InMem(m, Near(k).i) && m[Near(k).i] == Cell(Root(Near(k).l), Root(Near(k).r), k.sib.i, Near(k).c)
    ensures Far(k).T? ==> InMem(m, Far(k).i) && m[Far(k).i] == Cell(Root(Far(k).l), Root(Far(k).r), k.sib.i, Far(k).c)
  {
    var slo := SibLo(k, lo, hi);
    assert Linked(m, k.sib, k.i, slo, slo + Size(k.sib));
    assert Linked(m, k.sib.l, k.sib.i, slo, k.sib.i) && Linked(m, k.sib.r, k.sib.i, k.sib.i + 1, slo + Size(k.sib));
  }

  /** The node above the parent. */
  lemma UpCells(m: Mem, k: Ctx, t: Tree, lo: int, hi: int)
    requires k.In? && k.up.In? && k.sib.T? && Zipped(m, k, t, lo, hi)
    ensures InMem(m, k.up.i) && !(UpLo(k, lo) <= k.up.i < UpHi(k, hi))
    ensures m[k.up.i].Child(k.up.side) == k.i && m[k.up.i].Child(k.up.side.Other()) != k.i
  {
    var ulo, uhi := UpLo(k, lo), UpHi(k, hi);
    assert LinkedCtx(m, k.up, k.i, ulo, uhi);
    assert Linked(m, k.up.sib, k.up.i, SibLo(k.up, ulo, uhi), SibLo(k.up, ulo, uhi) + Size(k.up.sib));
  }

  /** What every case needs to know. */
  ghost predicate Scene(m: Mem, k: Ctx, t: Tree) {
    && k.In? && k.sib.T? && InMem(m, k.i) && InMem(m, k.sib.i) && k.i != k.sib.i && Root(t) !in {k.i, k.sib.i}
    && m[k.i].Child(k.side) == Root(t) && m[k.i].Child(k.side.Other()) == k.sib.i
    && m[k.i].parent == Owner(k.up) && m[k.i].color == k.c && m[k.sib.i].parent == k.i && m[k.sib.i].color == k.sib.c
    && m[k.sib.i].Child(k.side) == Root(Near(k)) && m[k.sib.i].Child(k.side.Other()) == Root(Far(k))
    && Root(Near(k)) !in {k.i, k.sib.i} && Root(Far(k)) !in {k.i, k.sib.i}
    && (Near(k).T? ==> InMem(m, Near(k).i) && m[Near(k).i].parent == k.sib.i && m[Near(k).i].color == Near(k).c)
    && (Far(k).T? ==> InMem(m, Far(k).i) && m[Far(k).i].parent == k.sib.i && m[Far(k).i].color == Far(k).c)
    && (Far(k).T? ==> Root(Near(k)) != Far(k).i)
    && (k.up.In? ==> && InMem(m, k.up.i) && k.up.i !in {k.i, k.sib.i, Root(Near(k)), Root(Far(k))}
                     && m[k.up.i].Child(k.up.side) == k.i && m[k.up.i].Child(k.up.side.Other()) != k.i)
  }

  lemma SceneHolds(m: Mem, k: Ctx, t: Tree, lo: int, hi: int)
    requires k.In? && k.sib.T? && Zipped(m, k, t, lo, hi)
    ensures Scene(m, k, t)
  {
    SibCells(m, k, t, lo, hi);
    Places(m, k, t, lo, hi);
    if k.up.In? { UpCells(m, k, t, lo, hi); NearUp(m, k, t, lo, hi); }
  }

  lemma NearUp(m: Mem, k: Ctx, t: Tree, lo: int, hi: int)
    requires k.In? && k.sib.T? && Zipped(m, k, t, lo, hi)
    ensures Near(k).T? ==> UpLo(k, lo) <= Near(k).i < UpHi(k, hi)
  {
    Places(m, k, t, lo, hi);
  }

  // Case 1

  lemma Case1AsWritten(m: Mem, k: Ctx, t: Tree)
    requires Scene(m, k, t) && k.c == Black && Col(Near(k)) == Black
    ensures TurnMem(m, k.side.Other(), k.i, k.sib.i, Root(Near(k))) == Case1Mem(m, k)
    ensures RootOf(Case1(k), Root(t)) == if k.up.In? then RootOf(k, Root(t)) else k.sib.i
  {
    TurnIsRotate(m, k.up, k.side.Other(), k.i, k.sib.i, Root(Near(k)));
    assert RootOf(Case1(k), Root(t)) == RootOf(Case1(k).up, k.i) == RootOf(k.up, k.sib.i);
    assert RootOf(k, Root(t)) == RootOf(k.up, k.i);
  }

  method RedSibling(root: RbRoot, parent: Node, sibling: Node, left: bool, ghost k: Ctx, ghost t: Tree, ghost lo: int,
                    ghost hi: int)
    returns (sibling': Node)
    requires At(root, k, t, lo, hi) && Short(k, t) && Col(k.sib) == Red && (left <==> k.side == Left)
    requires parent == Nd(root.order, k.i) && sibling == Nd(root.order, k.sib.i)
    modifies root`mem, root`node, root.order
    ensures At(root, Case1(k), t, lo, hi) && Short(Case1(k), t) && Near(k).T? && Near(k).c == Black
    ensures sibling' == Nd(root.order, Near(k).i)
  {
    SceneHolds(root.mem, k, t, lo, hi);
    Case1Balance(k, t);
    Case1AsWritten(root.mem, k, t);
    Case1Zipped(root.mem, k, t, lo, hi);
    if left {
      sibling' := sibling.left;
      TurnRight(root, parent, sibling, sibling', k.i, k.sib.i, Near(k).i);
    } else {
      sibling' := sibling.right;
      TurnLeft(root, parent, sibling, sibling', k.i, k.sib.i, Near(k).i);
    }
  }

  // Case 4

  lemma Case4AsWritten(m: Mem, k: Ctx, t: Tree)
    requires Scene(m, k, t) && Far(k).T?
    ensures RiseMem(m, k.side, k.i, k.sib.i, Root(Near(k)), Far(k).i) == Case4Mem(m, k)
    ensures RootOf(k.up, Root(Case4(k, t))) == if k.up.In? then RootOf(k, Root(t)) else k.sib.i
  {
    RiseIsRotate(m, k.up, k.side, k.i, k.sib.i, Root(Near(k)), Far(k).i);
    assert RootOf(k, Root(t)) == RootOf(k.up, k.i);
  }

  method RedFar(root: RbRoot, parent: Node, sibling: Node, far: Node, left: bool, ghost k: Ctx, ghost t: Tree,
                ghost lo: int, ghost hi: int)
    requires At(root, k, t, lo, hi) && k.In? && k.sib.T? && Far(k).T? && (left <==> k.side == Left)
    requires parent == Nd(root.order, k.i) && sibling == Nd(root.order, k.sib.i) && far == Nd(root.order, Far(k).i)
    modifies root`mem, root`node, root.order
    ensures At(root, k.up, Case4(k, t), UpLo(k, lo), UpHi(k, hi))
  {
    SceneHolds(root.mem, k, t, lo, hi);
    Case4AsWritten(root.mem, k, t);
    Case4Zipped(root.mem, k, t, lo, hi);
    if left {
      RiseLeft(root, parent, sibling, far, k.i, k.sib.i, Root(Near(k)), Far(k).i);
    } else {
      RiseRight(root, parent, sibling, far, k.i, k.sib.i, Root(Near(k)), Far(k).i);
    }
  }

  // Cases 3 and 4

  /** The near nephew's children. */
  ghost predicate NephewScene(m: Mem, k: Ctx, t: Tree) {
    && Scene(m, k, t) && Near(k).T?
    && var a, b, n := Root(NearNear(k)), Root(NearFar(k)), Near(k).i;
    && n !in {k.i, k.sib.i} && a !in {k.i, k.sib.i, n} && b !in {k.i, k.sib.i, n} && (a == b ==> a == NIL)
    && m[n].Child(k.side) == a && m[n].Child(k.side.Other()) == b
    && (InMem(m, b) ==> m[b].color == Col(NearFar(k)))
    && (k.up.In? ==> k.up.i !in {a, b})
  }

  lemma NephewHolds(m: Mem, k: Ctx, t: Tree, lo: int, hi: int)
    requires k.In? && k.sib.T? && Near(k).T? && Zipped(m, k, t, lo, hi)
    ensures NephewScene(m, k, t)
  {
    SceneHolds(m, k, t, lo, hi);
    Places(m, k, t, lo, hi);
    SibCells(m, k, t, lo, hi);
    if k.up.In? { UpCells(m, k, t, lo, hi); }
    var slo, shi, n := SibLo(k, lo, hi), SibLo(k, lo, hi) + Size(k.sib), Near(k);
    assert Linked(m, k.sib, k.i, slo, shi);
    var nlo, nhi := DownLo(k.side, k.sib.i, slo), DownHi(k.side, k.sib.i, shi);
    assert Linked(m, n, k.sib.i, nlo, nhi);
    assert Linked(m, n.l, n.i, nlo, n.i) && Linked(m, n.r, n.i, n.i + 1, nhi);
  }

  lemma Case34AsWritten(m: Mem, k: Ctx, t: Tree)
    requires NephewScene(m, k, t) && k.sib.c == Black && Near(k).c == Red && Col(NearFar(k)) == Black
    ensures var p, s, n := k.i, k.sib.i, Near(k).i;
      RiseMem(SwingMem(m, k.side, p, s, n, Root(NearFar(k))), k.side, p, n, Root(NearNear(k)), s) == Case34Mem(m, k, t)
    ensures RootOf(k.up, Root(Case34(k, t))) == if k.up.In? then RootOf(k, Root(t)) else Near(k).i
  {
    var d, p, s, n, a, b := k.side, k.i, k.sib.i, Near(k).i, Root(NearNear(k)), Root(NearFar(k));
    var m1, m2 := Case3Mem(m, k, t), SwingMem(m, d, p, s, n, b);
    var ks := In(d.Other(), k.c, p, t, k.up);
    SwingIsRotate(m, ks, d, p, s, n, b, m1, m2);
    RotateIsRotated(m, ks, d, s, n, b, Red, Black);
    RiseOverwrites(m1, m2, d, p, n, a, s);
    RiseIsRotate(m1, k.up, d, p, n, a, s);
    assert SetColor(m1, s, Black) == m1;
    assert RootOf(k, Root(t)) == RootOf(k.up, k.i);
  }

  method SwingAndRise(root: RbRoot, parent: Node, sibling: Node, near: Node, left: bool, ghost p: int, ghost s: int,
                      ghost n: int, ghost a: int, ghost b: int)
    requires IsAt(root, parent, p) && IsAt(root, sibling, s) && IsAt(root, near, n)
    requires p != s && n !in {p, s} && a !in {p, s, n} && b !in {p, s, n} && (a == b ==> a == NIL)
    requires root.mem[n].left == (if left then a else b) && root.mem[n].right == (if left then b else a)
    modifies root`mem, root`node, root.order
    ensures Shows(root.order, root.mem)
    ensures var d := if left then Left else Right;
      root.mem == old(RiseMem(SwingMem(root.mem, d, p, s, n, b), d, p, n, a, s))
    ensures root.node == if old(parent.parent) == null then near else old(root.node)
  {
    if left {
      SwingLeft(root, parent, sibling, near, p, s, n);
      assert root.mem[p].parent == old(root.mem[p].parent);
      RiseLeft(root, parent, near, sibling, p, n, a, s);
    } else {
      SwingRight(root, parent, sibling, near, p, s, n);
      assert root.mem[p].parent == old(root.mem[p].parent);
      RiseRight(root, parent, near, sibling, p, n, a, s);
    }
  }

  method RedNear(root: RbRoot, parent: Node, sibling: Node, near: Node, left: bool, ghost k: Ctx, ghost t: Tree,
                 ghost lo: int, ghost hi: int)
    requires At(root, k, t, lo, hi) && k.In? && k.sib.T? && Near(k).T? && (left <==> k.side == Left)
    requires k.sib.c == Black && Near(k).c == Red && Col(NearFar(k)) == Black
    requires parent == Nd(root.order, k.i) && sibling == Nd(root.order, k.sib.i) && near == Nd(root.order, Near(k).i)
    modifies root`mem, root`node, root.order
    ensures At(root, k.up, Case34(k, t), UpLo(k, lo), UpHi(k, hi))
  {
    NephewHolds(root.mem, k, t, lo, hi);
    Case34AsWritten(root.mem, k, t);
    Case34Zipped(root.mem, k, t, lo, hi);
    SwingAndRise(root, parent, sibling, near, left, k.i, k.sib.i, Near(k).i, Root(NearNear(k)), Root(NearFar(k)));
  }

  // Case 2

  /** Colours the sibling red, and the parent black if it was red. */
  method BlackNephews(root: RbRoot, parent: Node, sibling: Node, ghost k: Ctx, ghost t: Tree, ghost lo: int,
                      ghost hi: int)
    requires At(root, k, t, lo, hi) && k.In? && k.sib.T?
    requires parent == Nd(root.order, k.i) && sibling == Nd(root.order, k.sib.i)
    modifies root`mem, root.order
    ensures At(root, k.up, Case2(k, t, Black), UpLo(k, lo), UpHi(k, hi))
  {
    ghost var m := root.mem;
    SceneHolds(m, k, t, lo, hi);
    Case2Zipped(m, k, t, Black, lo, hi);
    assert RootOf(k, Root(t)) == RootOf(k.up, Root(Case2(k, t, Black)));
    assert m[k.sib.i].(parent := k.i, color := Red) == m[k.sib.i].(color := Red);
    SetParentColor(root, sibling, parent, Red, k.sib.i, k.i);
    ghost var m1 := root.mem;
    if parent.color == Red {
      assert m1[k.i].(parent := m1[k.i].parent, color := Black) == m1[k.i].(color := Black);
      SetParentColor(root, parent, parent.parent, Black, k.i, m1[k.i].parent);
    } else {
      assert m1[k.i] == m1[k.i].(color := Black);
      assert m1 == SetColor(m1, k.i, Black);
    }
  }

  /** Case 2 in full: done, or the parent's subtree is now the short one. */
  method NoRedNephew(root: RbRoot, parent: Node, sibling: Node, ghost k: Ctx, ghost t: Tree, ghost lo: int,
                     ghost hi: int)
    returns (again: bool)
    requires At(root, k, t, lo, hi) && Short(k, t) && k.sib.T? && k.sib.c == Black && Col(Near(k)) == Black
    requires Col(Far(k)) == Black
    requires parent == Nd(root.order, k.i) && sibling == Nd(root.order, k.sib.i)
    modifies root`mem, root`tree, root.order
    ensures !again ==> root.Valid() && IsRb(root.tree)
    ensures again ==> At(root, k.up, Case2(k, t, Black), UpLo(k, lo), UpHi(k, hi)) && Short(k.up, Case2(k, t, Black))
    ensures k.c == Red ==> !again
  {
    Case2Balance(k, t);
    SceneHolds(root.mem, k, t, lo, hi);
    var wasRed := parent.color == Red;
    BlackNephews(root, parent, sibling, k, t, lo, hi);
    assert parent.parent == Nd(root.order, Owner(k.up));
    again := !wasRed && parent.parent != null;
    if !again { Settle(root, k.up, Case2(k, t, Black), UpLo(k, lo), UpHi(k, hi)); }
  }

  /** Cases 3 and 4 in full. */
  method RedNephew(root: RbRoot, parent: Node, sibling: Node, far: Node?, near: Node?, left: bool, ghost k: Ctx,
                   ghost t: Tree, ghost lo: int, ghost hi: int)
    requires At(root, k, t, lo, hi) && Short(k, t) && k.sib.T? && k.sib.c == Black && (left <==> k.side == Left)
    requires parent == Nd(root.order, k.i) && sibling == Nd(root.order, k.sib.i)
    requires far == Nd(root.order, Root(Far(k))) && near == Nd(root.order, Root(Near(k)))
    requires Col(Far(k)) == Red || Col(Near(k)) == Red
    modifies root`mem, root`node, root`tree, root.order
    ensures root.Valid() && IsRb(root.tree)
  {
    SceneHolds(root.mem, k, t, lo, hi);
    if far == null || far.color == Black {
      Case34Balance(k, t);
      RedNear(root, parent, sibling, near, left, k, t, lo, hi);
      Settle(root, k.up, Case34(k, t), UpLo(k, lo), UpHi(k, hi));
    } else {
      Case4Balance(k, t);
      RedFar(root, parent, sibling, far, left, k, t, lo, hi);
      Settle(root, k.up, Case4(k, t), UpLo(k, lo), UpHi(k, hi));
    }
  }

  /** A black sibling: cases 2, 3 and 4. */
  method BlackSibling(root: RbRoot, parent: Node, sibling: Node, left: bool, ghost k: Ctx, ghost t: Tree,
                      ghost lo: int, ghost hi: int)
    returns (again: bool)
    requires At(root, k, t, lo, hi) && Short(k, t) && k.sib.T? && k.sib.c == Black && (left <==> k.side == Left)
    requires parent == Nd(root.order, k.i) && sibling == Nd(root.order, k.sib.i)
    modifies root`mem, root`node, root`tree, root.order
    ensures !again ==> root.Valid() && IsRb(root.tree)
    ensures again ==> At(root, k.up, Case2(k, t, Black), UpLo(k, lo), UpHi(k, hi)) && Short(k.up, Case2(k, t, Black))
    ensures k.c == Red ==> !again
  {
    SceneHolds(root.mem, k, t, lo, hi);
    var far := if left then sibling.right else sibling.left;
    var near := if left then sibling.left else sibling.right;
    if (far == null || far.color == Black) && (near == null || near.color == Black) {
      again := NoRedNephew(root, parent, sibling, k, t, lo, hi);
    } else {
      RedNephew(root, parent, sibling, far, near, left, k, t, lo, hi);
      again := false;
    }
  }

  lemma SiblingExists(root: RbRoot, k: Ctx, t: Tree, lo: int, hi: int)
    requires At(root, k, t, lo, hi) && Short(k, t)
    ensures k.sib.T? && InMem(root.mem, k.i) && InMem(root.mem, k.sib.i)
    ensures var p, s := root.order[k.i], root.order[k.sib.i];
      && (p.right == Nd(root.order, Root(t)) <==> k.side == Right)
      && s == (if k.side == Left then p.right else p.left) && s.color == k.sib.c
      && p.parent == Nd(root.order, Owner(k.up))
  {
    SceneHolds(root.mem, k, t, lo, hi);
  }

  /** One round of the loop. A red sibling is rotated away first; then the parent is red
      and the round is the last. */
  method Round(root: RbRoot, parent: Node, node: Node?, ghost k: Ctx, ghost t: Tree, ghost lo: int, ghost hi: int)
    returns (again: bool)
    requires At(root, k, t, lo, hi) && Short(k, t)
    requires parent == Nd(root.order, k.i) && node == Nd(root.order, Root(t))
    modifies root`mem, root`node, root`tree, root.order
    ensures !again ==> root.Valid() && IsRb(root.tree)
    ensures again ==>
      k.sib.T? && At(root, k.up, Case2(k, t, Black), UpLo(k, lo), UpHi(k, hi)) && Short(k.up, Case2(k, t, Black))
  {
    SiblingExists(root, k, t, lo, hi);
    var sibling := parent.right;
    var left := node != sibling;
    if !left { sibling := parent.left; }
    if sibling.color == Red {
      sibling := RedSibling(root, parent, sibling, left, k, t, lo, hi);
      again := BlackSibling(root, parent, sibling, left, Case1(k), t, lo, hi);
    } else {
      again := BlackSibling(root, parent, sibling, left, k, t, lo, hi);
    }
  }

  /** `____rb_erase_color`: the paths through one (empty) child of `start` are one black
      node short; the tree is made a red-black tree again, keeping the nodes in order. */
  method EraseColor(root: RbRoot, start: Node, ghost k0: Ctx, ghost i: int)
    requires At(root, k0, Leaf, i, i) && Short(k0, Leaf) && start == Nd(root.order, k0.i)
    modifies root`mem, root`node, root`tree, root.order
    ensures root.Valid() && IsRb(root.tree)
  {
    var parent, node: Node? := start, null;
    ghost var k, t, lo, hi := k0, Leaf, i, i;
    while true
      invariant At(root, k, t, lo, hi) && Short(k, t)
      invariant parent == Nd(root.order, k.i) && node == Nd(root.order, Root(t))
      decreases k
    {
      var again := Round(root, parent, node, k, t, lo, hi);
      if !again { return; }
      node := parent;
      lo, hi := UpLo(k, lo), UpHi(k, hi);
      k, t := k.up, Case2(k, t, Black);
      parent := node.parent;
    }
  }
}
