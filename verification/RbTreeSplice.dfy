/** Taking a node out of the tree (`__rb_erase_augmented`, `rb_erase`). */
module RbTreeSplice {
  import opened RbTreeModel
  import opened RbTreeHeap
  import opened RbTreeErase

  // --- Renumbering: place `x` is given up -------------------------------------------------

  const DANGLING := -2

  ghost function Sh(x: int, q: int): int {
    if q == x then DANGLING else if q > x then q - 1 else q
  }

  ghost function Cut(x: int, a: int): int { if a > x then a - 1 else a }

  ghost function ShCell(x: int, c: Cell): Cell {
    Cell(Sh(x, c.left), Sh(x, c.right), Sh(x, c.parent), c.color)
  }

  /** `m'` is `m` without the cell of place `x`. */
  ghost predicate IsSh(x: int, m: Mem, m': Mem) {
    && InMem(m, x) && |m'| == |m| - 1
    && forall j {:trigger m[j]} :: InMem(m, j) && j != x ==> m'[Sh(x, j)] == ShCell(x, m[j])
  }

  ghost function ShTree(x: int, t: Tree): Tree {
    match t
    case Leaf => Leaf
    case T(l, c, i, r) => T(ShTree(x, l), c, Sh(x, i), ShTree(x, r))
  }

  ghost function ShCtx(x: int, k: Ctx): Ctx {
    match k
    case Top => Top
    case In(d, c, i, sib, up) => In(d, c, Sh(x, i), ShTree(x, sib), ShCtx(x, up))
  }

  lemma {:induction false} ShShape(x: int, t: Tree)
    ensures var t' := ShTree(x, t);
      && Size(t') == Size(t) && Bh(t') == Bh(t) && Col(t') == Col(t)
      && (Even(t') <==> Even(t)) && (NoRedRed(t') <==> NoRedRed(t))
  {
    if t.T? { ShShape(x, t.l); ShShape(x, t.r); }
  }

  lemma {:induction false} ShLinked(x: int, m: Mem, m': Mem, t: Tree, p: int, lo: int, hi: int)
    requires IsSh(x, m, m') && Linked(m, t, p, lo, hi) && (hi <= x || x < lo)
    ensures Linked(m', ShTree(x, t), Sh(x, p), Cut(x, lo), Cut(x, hi))
    decreases t
  {
    if t.T? {
      ShLinked(x, m, m', t.l, t.i, lo, t.i);
      ShLinked(x, m, m', t.r, t.i, t.i + 1, hi);
    }
  }

  lemma {:induction false} ShLinkedCtx(x: int, m: Mem, m': Mem, k: Ctx, hole: int, lo: int, hi: int)
    requires IsSh(x, m, m') && LinkedCtx(m, k, hole, lo, hi) && lo <= x < hi
    ensures LinkedCtx(m', ShCtx(x, k), Sh(x, hole), lo, hi - 1)
    decreases k
  {
    if k.In? {
      ShLinkedCtx(x, m, m', k.up, k.i, UpLo(k, lo), UpHi(k, hi));
      ShStep(x, m, m', k, hole, lo, hi);
    }
  }

  lemma ShStep(x: int, m: Mem, m': Mem, k: Ctx, hole: int, lo: int, hi: int)
    requires k.In? && lo <= x < hi
    ensures IsSh(x, m, m') && LinkedCtx(m, k, hole, lo, hi) &&
            LinkedCtx(m', ShCtx(x, k.up), Sh(x, k.i), UpLo(k, lo), UpHi(k, hi) - 1) ==>
            LinkedCtx(m', ShCtx(x, k), Sh(x, hole), lo, hi - 1)
  {
    if LinkedCtx(m, k, hole, lo, hi) {
      if k.side == Left {
        assert k.i == hi && UpLo(k, lo) == lo && UpHi(k, hi) - 1 == hi + Size(k.sib);
        ShStepLeft(x, m, m', k, hole, lo, hi);
      } else {
        assert k.i == lo - 1 && UpLo(k, lo) == lo - 1 - Size(k.sib) && UpHi(k, hi) - 1 == hi - 1;
        ShStepRight(x, m, m', k, hole, lo, hi);
      }
    }
  }

  lemma ShSibLeft(x: int, m: Mem, m': Mem, k: Ctx, hole: int, lo: int, hi: int)
    requires IsSh(x, m, m') && LinkedCtx(m, k, hole, lo, hi) && lo <= x < hi && k.In? && k.side == Left
    ensures Linked(m', ShTree(x, k.sib), hi - 1, hi, hi + Size(k.sib)) && Sh(x, hi) == hi - 1
  {
    var n := Size(k.sib);
    ShLinked(x, m, m', k.sib, hi, hi + 1, hi + 1 + n);
    assert Cut(x, hi + 1) == hi && Cut(x, hi + 1 + n) == hi + n;
  }

  lemma ShSibRight(x: int, m: Mem, m': Mem, k: Ctx, hole: int, lo: int, hi: int)
    requires IsSh(x, m, m') && LinkedCtx(m, k, hole, lo, hi) && lo <= x < hi && k.In? && k.side == Right
    ensures Linked(m', ShTree(x, k.sib), lo - 1, lo - 1 - Size(k.sib), lo - 1) && Sh(x, lo - 1) == lo - 1
  {
    var n := Size(k.sib);
    ShLinked(x, m, m', k.sib, lo - 1, lo - 1 - n, lo - 1);
    assert Cut(x, lo - 1 - n) == lo - 1 - n && Cut(x, lo - 1) == lo - 1;
  }

  lemma ShStepLeft(x: int, m: Mem, m': Mem, k: Ctx, hole: int, lo: int, hi: int)
    requires k.In? && k.side == Left && lo <= x < hi
    ensures IsSh(x, m, m') && LinkedCtx(m, k, hole, lo, hi) &&
            LinkedCtx(m', ShCtx(x, k.up), Sh(x, hi), lo, hi + Size(k.sib)) ==>
            LinkedCtx(m', ShCtx(x, k), Sh(x, hole), lo, hi - 1)
  {
    if IsSh(x, m, m') && LinkedCtx(m, k, hole, lo, hi) {
      ShSibLeft(x, m, m', k, hole, lo, hi);
      ShShape(x, k.sib);
      var k' := ShCtx(x, k);
      assert SibLo(k', lo, hi - 1) == hi && UpLo(k', lo) == lo && UpHi(k', hi - 1) == hi + Size(k.sib);
      assert m'[hi - 1] == ShCell(x, m[hi]);
    }
  }

  lemma ShStepRight(x: int, m: Mem, m': Mem, k: Ctx, hole: int, lo: int, hi: int)
    requires k.In? && k.side == Right && lo <= x < hi
    ensures IsSh(x, m, m') && LinkedCtx(m, k, hole, lo, hi) &&
            LinkedCtx(m', ShCtx(x, k.up), Sh(x, lo - 1), lo - 1 - Size(k.sib), hi - 1) ==>
            LinkedCtx(m', ShCtx(x, k), Sh(x, hole), lo, hi - 1)
  {
    if IsSh(x, m, m') && LinkedCtx(m, k, hole, lo, hi) {
      ShSibRight(x, m, m', k, hole, lo, hi);
      ShShape(x, k.sib);
      var k' := ShCtx(x, k);
      assert SibLo(k', lo, hi - 1) == lo - 1 - Size(k.sib) == UpLo(k', lo) && UpHi(k', hi - 1) == hi - 1;
      assert m'[lo - 1] == ShCell(x, m[lo - 1]);
    }
  }

  lemma {:induction false} ShBalanced(x: int, k: Ctx, h: nat, c: Color)
    ensures EvenCtx(ShCtx(x, k), h) <==> EvenCtx(k, h)
    ensures NoRedRedCtx(ShCtx(x, k), c) <==> NoRedRedCtx(k, c)
    decreases k
  {
    if k.In? { ShShape(x, k.sib); ShBalanced(x, k.up, h + B(k.c), k.c); }
  }

  // --- Excising a node with at most one child ---------------------------------------------

  /** `t` has the single subtree `u`. */
  ghost predicate Single(t: Tree, u: Tree) {
    t.T? && ((t.l.Leaf? && t.r == u) || (t.r.Leaf? && t.l == u))
  }

  ghost function Dyed(u: Tree, c: Color): Tree { if u.T? then u.(c := c) else u }

  /** The child `b` takes the place and the colour of its parent below the owner of `k`. */
  ghost function ExciseMem(m: Mem, k: Ctx, b: int, c: Color): (m': Mem)
    ensures |m'| == |m|
  {
    var m1 := SetHole(m, k, b);
    if InMem(m1, b) then m1[b := m1[b].(parent := Owner(k), color := c)] else m1
  }

  lemma ExciseLinked(m: Mem, k: Ctx, t: Tree, u: Tree, lo: int, hi: int)
    requires Zipped(m, k, t, lo, hi) && Single(t, u)
    ensures var a, b := (if t.l.Leaf? then t.i + 1 else lo), (if t.l.Leaf? then hi else t.i);
      Linked(ExciseMem(m, k, Root(u), t.c), Dyed(u, t.c), Owner(k), a, b)
  {
    var m1 := ExciseMem(m, k, Root(u), t.c);
    var a, b := (if t.l.Leaf? then t.i + 1 else lo), (if t.l.Leaf? then hi else t.i);
    assert Linked(m, u, t.i, a, b);
    if u.T? {
      Frame(m, m1, u.l, u.i, a, u.i);
      Frame(m, m1, u.r, u.i, u.i + 1, b);
    }
  }

  lemma ExciseCtx(m: Mem, k: Ctx, t: Tree, u: Tree, lo: int, hi: int)
    requires Zipped(m, k, t, lo, hi) && Single(t, u)
    ensures LinkedCtx(ExciseMem(m, k, Root(u), t.c), k, Root(u), lo, hi)
  {
    assert Linked(m, u, t.i, if t.l.Leaf? then t.i + 1 else lo, if t.l.Leaf? then hi else t.i);
    Rehang(m, ExciseMem(m, k, Root(u), t.c), k, t.i, Root(u), lo, hi);
  }

  lemma ExcisePlaces(m: Mem, k: Ctx, t: Tree, u: Tree, lo: int, hi: int)
    requires Zipped(m, k, t, lo, hi) && Single(t, u)
    ensures 0 <= lo <= t.i < hi && (t.l.Leaf? ==> t.i == lo) && (t.r.Leaf? ==> t.i + 1 == hi)
  {
    assert Linked(m, t.l, t.i, lo, t.i) && Linked(m, t.r, t.i, t.i + 1, hi);
  }

  lemma ExciseTree(m: Mem, m': Mem, k: Ctx, t: Tree, u: Tree, lo: int, hi: int)
    requires Zipped(m, k, t, lo, hi) && Single(t, u) && IsSh(t.i, ExciseMem(m, k, Root(u), t.c), m')
    ensures Linked(m', ShTree(t.i, Dyed(u, t.c)), Owner(ShCtx(t.i, k)), lo, hi - 1)
  {
    var m1, x := ExciseMem(m, k, Root(u), t.c), t.i;
    var a, b := (if t.l.Leaf? then x + 1 else lo), (if t.l.Leaf? then hi else x);
    ExcisePlaces(m, k, t, u, lo, hi);
    assert Cut(x, a) == lo && Cut(x, b) == hi - 1;
    assert Sh(x, Owner(k)) == Owner(ShCtx(x, k));
    ExciseLinked(m, k, t, u, lo, hi);
    ShLinked(x, m1, m', Dyed(u, t.c), Owner(k), a, b);
  }

  lemma ExciseZipped(m: Mem, m': Mem, k: Ctx, t: Tree, u: Tree, lo: int, hi: int)
    requires Zipped(m, k, t, lo, hi) && Single(t, u) && IsSh(t.i, ExciseMem(m, k, Root(u), t.c), m')
    ensures Zipped(m', ShCtx(t.i, k), ShTree(t.i, Dyed(u, t.c)), lo, hi - 1)
  {
    var m1, x := ExciseMem(m, k, Root(u), t.c), t.i;
    ExcisePlaces(m, k, t, u, lo, hi);
    assert Root(ShTree(x, Dyed(u, t.c))) == Sh(x, Root(u));
    ExciseTree(m, m', k, t, u, lo, hi);
    ExciseCtx(m, k, t, u, lo, hi);
    assert Cut(x, lo) == lo && Cut(x, hi) == hi - 1;
    ShLinkedCtx(x, m1, m', k, Root(u), lo, hi);
  }

  /** What is left is balanced, or one black node short. */
  lemma ExciseBalance(x: int, k: Ctx, t: Tree, u: Tree)
    requires Balanced(k, t) && Single(t, u)
    ensures Nearly(ShCtx(x, k), ShTree(x, Dyed(u, t.c)), u.Leaf? && t.c == Black)
  {
    assert Bh(t.l) == Bh(t.r) == 0 && Even(u) && NoRedRed(u);
    assert u.T? ==> u.c == Red && t.c == Black;
    assert Even(Dyed(u, t.c)) && NoRedRed(Dyed(u, t.c)) && Bh(Dyed(u, t.c)) == if u.T? then 1 else 0;
    assert Bh(t) == B(t.c);
    ShShape(x, Dyed(u, t.c));
    ShBalanced(x, k, Bh(Dyed(u, t.c)), Col(Dyed(u, t.c)));
    ShBalanced(x, k, 1, Black);
  }

  // --- The successor takes over ----------------------------------------------------------------
  // The node at place `i` has two children; its successor, at place `i + 1`, is excised and
  // takes the node's place. `po` is the successor's parent, `b` its only child.

  ghost function Ren(i: int, q: int): int { if q == i then i + 1 else q }

  ghost function RenCell(i: int, c: Cell): Cell {
    Cell(Ren(i, c.left), Ren(i, c.right), Ren(i, c.parent), c.color)
  }

  ghost predicate Avoids(c: Cell, q: int) { c.left != q && c.right != q && c.parent != q }

  /** Giving up the node's place is giving up the successor's, with the node renamed. */
  lemma TakeOver(i: int, m1: Mem, m2: Mem, m': Mem)
    requires IsSh(i, m2, m') && |m1| == |m2| && InMem(m1, i + 1)
    requires forall j {:trigger m2[j]} :: InMem(m1, j) && j != i && j != i + 1 ==> m2[j] == RenCell(i, m1[j])
    requires m2[i + 1] == RenCell(i, m1[i])
    requires forall j {:trigger m1[j]} :: InMem(m1, j) && j != i + 1 ==> Avoids(m1[j], i + 1)
    ensures IsSh(i + 1, m1, m')
  {
    forall j {:trigger m1[j]} | InMem(m1, j) && j != i + 1
      ensures m'[Sh(i + 1, j)] == ShCell(i + 1, m1[j])
    {
      var j2 := if j == i then i + 1 else j;
      assert m'[Sh(i, j2)] == ShCell(i, m2[j2]);
      assert Avoids(m1[j], i + 1);
    }
  }

  /** The writes of case 3, up to where it joins case 2. */
  ghost function HeadMem(m: Mem, s: int, po: int, child: int, b: int): (m': Mem)
    requires InMem(m, s) && InMem(m, po)
    ensures |m'| == |m|
  {
    var m1 := m[po := m[po].(left := b)];
    SetParent(m1[s := m1[s].(right := child)], child, s)
  }

  /** The writes common to cases 2 and 3. */
  ghost function TailMem(m: Mem, i: int, s: int, l: int, b: int, po: int): (m': Mem)
    requires InMem(m, i) && InMem(m, s)
    ensures |m'| == |m|
  {
    var m1 := SetParent(m[s := m[s].(left := l)], l, s);
    var m2 := ChangeChildMem(m1, m1[i].parent, i, s);
    Moved(m2[s := m2[s].(parent := m2[i].parent, color := m2[i].color)], b, po)
  }

  /** The node at `i` with children `l` and `child` below `q`, and its successor below `po`. */
  ghost predicate SuccScene(m: Mem, i: int, l: int, child: int, q: int, po: int, b: int) {
    && Consistent(m) && InMem(m, i) && InMem(m, i + 1) && InMem(m, l) && InMem(m, child) && InMem(m, po)
    && m[i].left == l && m[i].right == child && m[i].parent == q
    && m[i + 1].left == NIL && m[i + 1].right == b && m[i + 1].parent == po
    && l < i && child > i && (b == NIL || b > i + 1) && b !in {l, child, po}
    && q !in {l, child, po, i, i + 1} && (q != NIL ==> InMem(m, q) && q != b)
    && (q != NIL ==> m[q].left != m[q].right)
    && po != l
  }

  /** Who points to the successor, and who to the node. */
  lemma PointersTo(m: Mem, i: int, l: int, child: int, q: int, po: int, b: int, j: int)
    requires SuccScene(m, i, l, child, q, po, b) && InMem(m, j)
    ensures m[j].left == i + 1 || m[j].right == i + 1 ==> j == po
    ensures m[j].parent == i + 1 ==> j == b
    ensures m[j].left == i || m[j].right == i ==> j == q
    ensures m[j].parent == i ==> j == l || j == child
  {
    assert ChildOk(m, j, m[j].left) && ChildOk(m, j, m[j].right) && ParentOk(m, j);
  }

  lemma Case3TakesOver(m: Mem, i: int, l: int, child: int, q: int, po: int, b: int, m1: Mem, m2: Mem, m': Mem)
    requires SuccScene(m, i, l, child, q, po, b) && po > i + 1 && child > i + 1 && m[po].left == i + 1
    requires m[po].right != i + 1
    requires m1 == Moved(m[po := m[po].(left := b)], b, po)
    requires m2 == TailMem(HeadMem(m, i + 1, po, child, b), i, i + 1, l, b, po)
    requires IsSh(i, m2, m')
    ensures IsSh(i + 1, m1, m')
  {
    forall j {:trigger m1[j]} | InMem(m1, j) && j != i + 1
      ensures Avoids(m1[j], i + 1)
    {
      PointersTo(m, i, l, child, q, po, b, j);
    }
    forall j {:trigger m2[j]} | InMem(m1, j) && j != i && j != i + 1
      ensures m2[j] == RenCell(i, m1[j])
    {
      Case3Cell(m, i, l, child, q, po, b, j);
    }
    assert m2[i + 1] == Cell(l, child, q, m[i].color);
    TakeOver(i, m1, m2, m');
  }

  lemma Case3Cell(m: Mem, i: int, l: int, child: int, q: int, po: int, b: int, j: int)
    requires SuccScene(m, i, l, child, q, po, b) && po > i + 1 && child > i + 1 && InMem(m, j) && j != i && j != i + 1
    ensures TailMem(HeadMem(m, i + 1, po, child, b), i, i + 1, l, b, po)[j] ==
            RenCell(i, Moved(m[po := m[po].(left := b)], b, po)[j])
  {
    PointersTo(m, i, l, child, q, po, b, j);
  }

  lemma Case2TakesOver(m: Mem, i: int, l: int, q: int, b: int, m1: Mem, m2: Mem, m': Mem)
    requires SuccScene(m, i, l, i + 1, q, i, b)
    requires m1 == Moved(m[i := m[i].(right := b)], b, i)
    requires m2 == TailMem(m, i, i + 1, l, b, i + 1)
    requires IsSh(i, m2, m')
    ensures IsSh(i + 1, m1, m')
  {
    forall j {:trigger m1[j]} | InMem(m1, j) && j != i + 1
      ensures Avoids(m1[j], i + 1)
    {
      PointersTo(m, i, l, i + 1, q, i, b, j);
    }
    forall j {:trigger m2[j]} | InMem(m1, j) && j != i && j != i + 1
      ensures m2[j] == RenCell(i, m1[j])
    {
      Case2Cell(m, i, l, q, b, j);
    }
    assert m2[i + 1] == Cell(l, b, q, m[i].color);
    TakeOver(i, m1, m2, m');
  }

  lemma Case2Cell(m: Mem, i: int, l: int, q: int, b: int, j: int)
    requires SuccScene(m, i, l, i + 1, q, i, b) && InMem(m, j) && j != i && j != i + 1
    ensures TailMem(m, i, i + 1, l, b, i + 1)[j] == RenCell(i, Moved(m[i := m[i].(right := b)], b, i)[j])
  {
    PointersTo(m, i, l, i + 1, q, i, b, j);
  }

  // --- Retiring a node ----------------------------------------------------------------------

  ghost function ShMem(x: int, m: Mem): (m': Mem)
    requires InMem(m, x)
    ensures IsSh(x, m, m')
  {
    seq(|m| - 1, j requires 0 <= j < |m| - 1 => ShCell(x, m[if j < x then j else j + 1]))
  }

  ghost function Without(s: seq<Node>, i: int): seq<Node>
    requires 0 <= i < |s|
  {
    s[..i] + s[i + 1..]
  }

  lemma WithoutMembers(s: seq<Node>, i: int)
    requires 0 <= i < |s|
    ensures forall x :: x in Without(s, i) ==> x in s
  {
  }

  lemma NdWithout(s: seq<Node>, i: int, q: int)
    requires 0 <= i < |s| && q != i
    ensures Nd(Without(s, i), Sh(i, q)) == Nd(s, q)
  {
  }

  lemma RetireCell(s: seq<Node>, m: Mem, m': Mem, i: int, j: int)
    requires Shows(s, m) && IsSh(i, m, m') && Consistent(m') && InMem(m, j) && j != i
    ensures Nd(Without(s, i), m'[Sh(i, j)].left) == s[j].left && Nd(Without(s, i), m'[Sh(i, j)].right) == s[j].right
    ensures Nd(Without(s, i), m'[Sh(i, j)].parent) == s[j].parent && m'[Sh(i, j)].color == s[j].color
  {
    var c, c' := m[j], m'[Sh(i, j)];
    assert c' == ShCell(i, c);
    assert ChildOk(m', Sh(i, j), c'.left) && ChildOk(m', Sh(i, j), c'.right) && ParentOk(m', Sh(i, j));
    NdWithout(s, i, c.left);
    NdWithout(s, i, c.right);
    NdWithout(s, i, c.parent);
  }

  lemma RetireShows(s: seq<Node>, m: Mem, m': Mem, i: int)
    requires Shows(s, m) && IsSh(i, m, m') && Consistent(m')
    ensures Shows(Without(s, i), m')
  {
    var s' := Without(s, i);
    forall j {:trigger m'[j]} | 0 <= j < |s'|
      ensures && s'[j].left == Nd(s', m'[j].left) && s'[j].right == Nd(s', m'[j].right)
              && s'[j].parent == Nd(s', m'[j].parent) && s'[j].color == m'[j].color
    {
      var j0 := if j < i then j else j + 1;
      assert Sh(i, j0) == j && s'[j] == s[j0];
      RetireCell(s, m, m', i, j0);
    }
  }

  lemma {:induction false} ShRootOf(x: int, k: Ctx, h: int)
    ensures RootOf(ShCtx(x, k), Sh(x, h)) == Sh(x, RootOf(k, h))
    decreases k
  {
    if k.In? { ShRootOf(x, k.up, k.i); }
  }

  /** The place in memory of a node with at most one child, `b`. */
  ghost predicate SingleScene(m: Mem, k: Ctx, i: int, b: int) {
    && InMem(m, i) && b != i && (b == NIL || InMem(m, b)) && (k.In? ==> InMem(m, k.i) && k.i !in {i, b})
    && (k.In? ==> m[k.i].Child(k.side) == i && m[k.i].Child(k.side.Other()) != i)
    && m[i].parent == Owner(k)
  }

  lemma SingleSceneHolds(m: Mem, k: Ctx, t: Tree, u: Tree, lo: int, hi: int)
    requires Zipped(m, k, t, lo, hi) && Single(t, u)
    ensures SingleScene(m, k, t.i, Root(u)) && m[t.i].color == t.c
    ensures m[t.i].left == (if t.l.Leaf? then NIL else Root(u)) && m[t.i].right == (if t.l.Leaf? then Root(u) else NIL)
  {
    assert Linked(m, u, t.i, if t.l.Leaf? then t.i + 1 else lo, if t.l.Leaf? then hi else t.i);
    if k.In? {
      assert Linked(m, k.sib, k.i, SibLo(k, lo, hi), SibLo(k, lo, hi) + Size(k.sib));
    }
  }

  /** `__rb_erase_augmented`, case 1: `child` is the only child, if there is one. */
  method SpliceSingle(root: RbRoot, node: Node, child: Node?, ghost k: Ctx, ghost i: int,
                      ghost b: int) returns (rebalance: Node?)
    requires IsAt(root, node, i) && child == Nd(root.order, b) && SingleScene(root.mem, k, i, b)
    requires root.node == Nd(root.order, RootOf(k, i))
    modifies root`mem, root`node, root.order
    ensures Shows(root.order, root.mem) && root.mem == old(ExciseMem(root.mem, k, b, root.mem[i].color))
    ensures root.node == Nd(root.order, RootOf(k, b))
    ensures rebalance == if b == NIL && old(node.color) == Black then Nd(root.order, Owner(k)) else null
  {
    ghost var m := root.mem;
    var parent, color := node.parent, node.color;
    ChangeChild(root, node, child, parent, i, b, m[i].parent);
    assert root.mem == SetHole(m, k, b);
    rebalance := null;
    if child != null {
      SetParentColor(root, child, parent, color, b, m[i].parent);
    } else if color == Black {
      rebalance := parent;
    }
  }

  /** The node at place `i` is out of the tree. */
  ghost method Retire(root: RbRoot, i: int, m': Mem, k: Ctx, t: Tree, lo: int, hi: int)
    requires 0 <= i < |root.order| && root.node == Nd(Without(root.order, i), RootOf(k, Root(t)))
    requires Zipped(m', k, t, lo, hi)
    requires IsSh(i, root.mem, m')
    requires Shows(root.order, root.mem)
    modifies root`order, root`mem
    ensures root.order == old(Without(root.order, i)) && At(root, k, t, lo, hi)
  {
    ZippedConsistent(m', k, t, lo, hi);
    RetireShows(root.order, root.mem, m', i);
    root.order, root.mem := Without(root.order, i), m';
  }

  /** What is left is balanced, or, if `short`, one black node short of it. */
  ghost predicate Nearly(k: Ctx, t: Tree, short: bool) {
    if short && k.In? then t.Leaf? && Short(k, t) else Balanced(k, t)
  }

  method Finish(root: RbRoot, rebalance: Node?, ghost k: Ctx, ghost t: Tree, ghost lo: int, ghost hi: int,
                ghost short: bool)
    requires At(root, k, t, lo, hi) && Nearly(k, t, short)
    requires rebalance == if short then Nd(root.order, Owner(k)) else null
    modifies root`mem, root`node, root`tree, root.order
    ensures root.order == old(root.order) && root.Valid() && IsRb(root.tree)
  {
    if rebalance != null {
      EraseColor(root, rebalance, k, lo);
    } else {
      Settle(root, k, t, lo, hi);
    }
  }

  lemma {:induction false} RootOutside(m: Mem, k: Ctx, hole: int, lo: int, hi: int, h: int)
    requires LinkedCtx(m, k, hole, lo, hi) && lo <= hi && k.In?
    ensures !(lo <= RootOf(k, h) < hi)
    decreases k
  {
    if k.up.In? { RootOutside(m, k.up, k.i, UpLo(k, lo), UpHi(k, hi), k.i); }
  }

  lemma ExciseRoot(m: Mem, k: Ctx, t: Tree, u: Tree, lo: int, hi: int)
    requires Zipped(m, k, t, lo, hi) && Single(t, u)
    ensures RootOf(k, Root(u)) != t.i && Owner(k) != t.i
    ensures RootOf(ShCtx(t.i, k), Root(ShTree(t.i, Dyed(u, t.c)))) == Sh(t.i, RootOf(k, Root(u)))
    ensures Owner(ShCtx(t.i, k)) == Sh(t.i, Owner(k))
  {
    if k.In? { RootOutside(m, k, t.i, lo, hi, Root(u)); }
    SingleSceneHolds(m, k, t, u, lo, hi);
    ShRootOf(t.i, k, Root(u));
    assert Root(ShTree(t.i, Dyed(u, t.c))) == Sh(t.i, Root(u));
  }

  /** What the splice needs to know, and what it achieves: the memory `m'` without the
      node at place `i` holds `Plug(k', t')`. */
  ghost predicate ExcisePlan(m: Mem, m': Mem, k: Ctx, i: int, b: int, c: Color, k': Ctx, t': Tree, lo: int, hi: int) {
    && SingleScene(m, k, i, b) && m[i].color == c
    && RootOf(k, b) != i && Owner(k) != i
    && RootOf(k', Root(t')) == Sh(i, RootOf(k, b)) && Owner(k') == Sh(i, Owner(k))
    && IsSh(i, ExciseMem(m, k, b, c), m') && Zipped(m', k', t', lo, hi)
  }

  lemma ExcisePlanned(m: Mem, m': Mem, k: Ctx, t: Tree, u: Tree, lo: int, hi: int)
    requires Zipped(m, k, t, lo, hi) && Single(t, u) && IsSh(t.i, ExciseMem(m, k, Root(u), t.c), m')
    ensures ExcisePlan(m, m', k, t.i, Root(u), t.c, ShCtx(t.i, k), ShTree(t.i, Dyed(u, t.c)), lo, hi - 1)
  {
    SingleSceneHolds(m, k, t, u, lo, hi);
    ExciseRoot(m, k, t, u, lo, hi);
    ExciseZipped(m, m', k, t, u, lo, hi);
  }

  method ExciseSingle(root: RbRoot, node: Node, child: Node?, ghost m': Mem, ghost k: Ctx, ghost i: int, ghost b: int,
                      ghost c: Color,
                      ghost k': Ctx, ghost t': Tree, ghost lo: int, ghost hi: int)
    returns (rebalance: Node?)
    requires IsAt(root, node, i) && child == Nd(root.order, b) && root.node == Nd(root.order, RootOf(k, i))
    requires ExcisePlan(root.mem, m', k, i, b, c, k', t', lo, hi)
    modifies root`mem, root`node, root`order, root.order
    ensures root.order == old(Without(root.order, i)) && At(root, k', t', lo, hi)
    ensures rebalance == if b == NIL && c == Black then Nd(root.order, Owner(k')) else null
  {
    rebalance := SpliceSingle(root, node, child, k, i, b);
    NdWithout(root.order, i, RootOf(k, b));
    NdWithout(root.order, i, Owner(k));
    Retire(root, i, m', k', t', lo, hi);
  }

  lemma ExciseReady(m: Mem, k: Ctx, t: Tree, u: Tree, lo: int, hi: int) returns (m': Mem, k': Ctx, t': Tree)
    requires Zipped(m, k, t, lo, hi) && Balanced(k, t) && Single(t, u)
    ensures ExcisePlan(m, m', k, t.i, Root(u), t.c, k', t', lo, hi - 1)
    ensures Nearly(k', t', u.Leaf? && t.c == Black) && (Root(u) == NIL <==> u.Leaf?)
  {
    m' := ShMem(t.i, ExciseMem(m, k, Root(u), t.c));
    ExcisePlanned(m, m', k, t, u, lo, hi);
    ExciseBalance(t.i, k, t, u);
    k', t' := ShCtx(t.i, k), ShTree(t.i, Dyed(u, t.c));
    assert Linked(m, u, t.i, if t.l.Leaf? then t.i + 1 else lo, if t.l.Leaf? then hi else t.i);
  }

  method TakeOutSingle(root: RbRoot, node: Node, child: Node?, ghost k: Ctx, ghost t: Tree, ghost u: Tree,
                       ghost lo: int, ghost hi: int)
    returns (rebalance: Node?, ghost k': Ctx, ghost t': Tree)
    requires At(root, k, t, lo, hi) && Balanced(k, t) && Single(t, u)
    requires node == Nd(root.order, t.i) && child == Nd(root.order, Root(u))
    modifies root`mem, root`node, root`order, root.order
    ensures root.order == old(Without(root.order, t.i)) && At(root, k', t', lo, hi - 1)
    ensures var short := u.Leaf? && t.c == Black;
      Nearly(k', t', short) && rebalance == if short then Nd(root.order, Owner(k')) else null
  {
    ghost var m';
    m', k', t' := ExciseReady(root.mem, k, t, u, lo, hi);
    rebalance := ExciseSingle(root, node, child, m', k, t.i, Root(u), t.c, k', t', lo, hi - 1);
  }

  /** `rb_erase` of a node with at most one child. */
  method EraseSingle(root: RbRoot, node: Node, child: Node?, ghost k: Ctx, ghost t: Tree, ghost u: Tree,
                     ghost lo: int, ghost hi: int)
    requires At(root, k, t, lo, hi) && Balanced(k, t) && Single(t, u)
    requires node == Nd(root.order, t.i) && child == Nd(root.order, Root(u))
    modifies root, root.order
    ensures root.order == old(Without(root.order, t.i)) && root.Valid() && IsRb(root.tree)
  {
    WithoutMembers(root.order, t.i);
    ghost var k', t';
    var rebalance;
    rebalance, k', t' := TakeOutSingle(root, node, child, k, t, u, lo, hi);
    Finish(root, rebalance, k', t', lo, hi - 1, u.Leaf? && t.c == Black);
  }

  // --- Cases 2 and 3 on the heap --------------------------------------------------------------

  method HeadWrites(root: RbRoot, parent: Node, successor: Node, child: Node, ghost po: int, ghost s: int, ghost c: int)
    requires IsAt(root, parent, po) && IsAt(root, successor, s) && IsAt(root, child, c)
    modifies root`mem, root.order
    ensures root.node == old(root.node) && Shows(root.order, root.mem)
    ensures root.mem == old(HeadMem(root.mem, s, po, c, root.mem[s].right))
  {
    ghost var b := root.mem[s].right;
    SetLeft(root, parent, successor.right, po, b);
    SetRight(root, successor, child, s, c);
    assert root.mem[c].(parent := s, color := child.color) == root.mem[c].(parent := s);
    SetParentColor(root, child, successor, child.color, c, s);
  }

  method TailWrites(root: RbRoot, node: Node, successor: Node, parent: Node, child2: Node?, ghost i: int,
                    ghost s: int, ghost l: int, ghost b: int, ghost po: int)
    returns (rebalance: Node?)
    requires IsAt(root, node, i) && IsAt(root, successor, s) && IsAt(root, parent, po) && child2 == Nd(root.order, b)
    requires root.mem[i].left == l && InMem(root.mem, l) && i != s && l !in {i, s}
    modifies root`mem, root`node, root.order
    ensures Shows(root.order, root.mem) && root.mem == old(TailMem(root.mem, i, s, l, b, po))
    ensures root.node == if old(node.parent) == null then successor else old(root.node)
    ensures rebalance == if child2 == null && old(successor.color) == Black then parent else null
  {
    var tmp, color := node.left, successor.color;
    SetLeft(root, successor, tmp, s, l);
    assert root.mem[l].(parent := s, color := tmp.color) == root.mem[l].(parent := s);
    SetParentColor(root, tmp, successor, tmp.color, l, s);
    ghost var m1 := root.mem;
    assert m1[i].parent == old(root.mem[i].parent);
    ChangeChild(root, node, successor, node.parent, i, s, m1[i].parent);
    ghost var m2 := root.mem;
    SetParentColor(root, successor, node.parent, node.color, s, m2[i].parent);
    rebalance := null;
    if child2 != null {
      SetParentColor(root, child2, parent, Black, b, po);
    } else if color == Black {
      rebalance := parent;
    }
  }

  /** `s` holds the first place of `t`'s right subtree and has no left child; `kk` is its
      context. */
  ghost predicate Successor(k: Ctx, t: Tree, kk: Ctx, tt: Tree, hi: int, shi: int) {
    && t.T? && t.l.T? && t.r.T? && tt.T? && tt.l.Leaf? && tt.i == t.i + 1 && tt.i < shi <= hi
    && if kk == In(Right, t.c, t.i, t.l, k) then tt == t.r && shi == hi
       else kk.In? && kk.side == Left && shi <= t.r.i < hi
  }

  lemma SuccSceneHolds(m: Mem, k: Ctx, t: Tree, kk: Ctx, tt: Tree, lo: int, hi: int, shi: int)
    requires Zipped(m, k, t, lo, hi) && Successor(k, t, kk, tt, hi, shi) && Zipped(m, kk, tt, tt.i, shi)
    ensures SuccScene(m, t.i, t.l.i, t.r.i, Owner(k), kk.i, Root(tt.r))
    ensures m[tt.i].color == tt.c && m[t.i].color == t.c && (Root(tt.r) == NIL <==> tt.r.Leaf?)
    ensures kk.side == Left ==> kk.i > t.i + 1 && t.r.i > t.i + 1 && m[kk.i].left == t.i + 1 && m[kk.i].right != t.i + 1
    ensures kk.side == Right ==> kk.i == t.i && t.r.i == t.i + 1
  {
    ZippedConsistent(m, k, t, lo, hi);
    assert Linked(m, t.l, t.i, lo, t.i) && Linked(m, t.r, t.i, t.i + 1, hi);
    assert Linked(m, tt.r, tt.i, tt.i + 1, shi);
    assert Linked(m, kk.sib, kk.i, SibLo(kk, tt.i, shi), SibLo(kk, tt.i, shi) + Size(kk.sib));
    if k.In? {
      assert Linked(m, k.sib, k.i, SibLo(k, lo, hi), SibLo(k, lo, hi) + Size(k.sib));
    }
  }

  /** The memory that cases 2 and 3 leave behind. */
  ghost function SuccMem(m: Mem, deep: bool, i: int, l: int, child: int, po: int, b: int): (m': Mem)
    requires InMem(m, i) && InMem(m, i + 1) && InMem(m, po)
    ensures |m'| == |m|
  {
    if deep then TailMem(HeadMem(m, i + 1, po, child, b), i, i + 1, l, b, po) else TailMem(m, i, i + 1, l, b, i + 1)
  }

  lemma SuccTakesOver(m: Mem, m': Mem, k: Ctx, t: Tree, kk: Ctx, tt: Tree, lo: int, hi: int, shi: int)
    requires Zipped(m, k, t, lo, hi) && Successor(k, t, kk, tt, hi, shi) && Zipped(m, kk, tt, tt.i, shi)
    requires tt.r.T? ==> tt.c == Black
    requires InMem(m, t.i) && InMem(m, t.i + 1) && InMem(m, kk.i)
    requires IsSh(t.i, SuccMem(m, kk.side == Left, t.i, t.l.i, t.r.i, kk.i, Root(tt.r)), m')
    ensures IsSh(tt.i, ExciseMem(m, kk, Root(tt.r), tt.c), m')
  {
    SuccSceneHolds(m, k, t, kk, tt, lo, hi, shi);
    var i, b, m2 := t.i, Root(tt.r), SuccMem(m, kk.side == Left, t.i, t.l.i, t.r.i, kk.i, Root(tt.r));
    var m1 := ExciseMem(m, kk, b, tt.c);
    if kk.side == Left {
      assert m1 == Moved(m[kk.i := m[kk.i].(left := b)], b, kk.i);
      Case3TakesOver(m, i, t.l.i, t.r.i, Owner(k), kk.i, b, m1, m2, m');
    } else {
      assert m1 == Moved(m[i := m[i].(right := b)], b, i);
      Case2TakesOver(m, i, t.l.i, Owner(k), b, m1, m2, m');
    }
  }

  /** A plan for cases 2 and 3: `after`, without the node at place `i`, holds
      `Plug(k, t)`; `short` says whether one black node is then missing. */
  datatype Plan = Plan(after: Mem, deep: bool, i: int, l: int, child: int, q: int, po: int, b: int, root: int,
                       k: Ctx, t: Tree, lo: int, hi: int, short: bool)

  ghost predicate PlanScene(m: Mem, p: Plan) {
    && SuccScene(m, p.i, p.l, p.child, p.q, p.po, p.b)
    && (if p.deep then p.po > p.i + 1 && p.child > p.i + 1 else p.po == p.i && p.child == p.i + 1)
    && (p.short <==> p.b == NIL && m[p.i + 1].color == Black)
  }

  ghost predicate PlanRoot(p: Plan) {
    && RootOf(p.k, Root(p.t)) == Sh(p.i, if p.q == NIL then p.i + 1 else p.root) && (p.q != NIL ==> p.root != p.i)
    && Owner(p.k) == Sh(p.i, if p.deep then p.po else p.i + 1)
  }

  ghost predicate SuccPlan(m: Mem, p: Plan) {
    && PlanScene(m, p) && PlanRoot(p) && Zipped(p.after, p.k, p.t, p.lo, p.hi)
    && IsSh(p.i, SuccMem(m, p.deep, p.i, p.l, p.child, p.po, p.b), p.after)
  }

  ghost function MakePlan(after: Mem, k: Ctx, t: Tree, kk: Ctx, tt: Tree, shi: int): Plan
    requires t.T? && t.l.T? && t.r.T? && tt.T? && kk.In?
  {
    Plan(after, kk.side == Left, t.i, t.l.i, t.r.i, Owner(k), kk.i, Root(tt.r), RootOf(k, t.i),
         ShCtx(tt.i, kk), ShTree(tt.i, Dyed(tt.r, tt.c)), tt.i, shi - 1, tt.r.Leaf? && tt.c == Black)
  }

  lemma SuccPlanned(m: Mem, m': Mem, k: Ctx, t: Tree, kk: Ctx, tt: Tree, lo: int, hi: int, shi: int)
    requires Zipped(m, k, t, lo, hi) && Successor(k, t, kk, tt, hi, shi) && Zipped(m, kk, tt, tt.i, shi)
    requires tt.r.T? ==> tt.c == Black
    requires RootOf(kk, tt.i) == RootOf(k, t.i)
    requires InMem(m, t.i) && InMem(m, t.i + 1) && InMem(m, kk.i)
    requires IsSh(t.i, SuccMem(m, kk.side == Left, t.i, t.l.i, t.r.i, kk.i, Root(tt.r)), m')
    ensures SuccPlan(m, MakePlan(m', k, t, kk, tt, shi))
  {
    PlanSceneHolds(m, m', k, t, kk, tt, lo, hi, shi);
    PlanRootHolds(m, m', k, t, kk, tt, lo, hi, shi);
    SuccZipped(m, m', k, t, kk, tt, lo, hi, shi);
  }

  lemma PlanSceneHolds(m: Mem, m': Mem, k: Ctx, t: Tree, kk: Ctx, tt: Tree, lo: int, hi: int, shi: int)
    requires Zipped(m, k, t, lo, hi) && Successor(k, t, kk, tt, hi, shi) && Zipped(m, kk, tt, tt.i, shi)
    ensures PlanScene(m, MakePlan(m', k, t, kk, tt, shi))
  {
    SuccSceneHolds(m, k, t, kk, tt, lo, hi, shi);
    SuccShort(m, t, tt);
  }

  lemma PlanRootHolds(m: Mem, m': Mem, k: Ctx, t: Tree, kk: Ctx, tt: Tree, lo: int, hi: int, shi: int)
    requires Zipped(m, k, t, lo, hi) && Successor(k, t, kk, tt, hi, shi) && Zipped(m, kk, tt, tt.i, shi)
    requires RootOf(kk, tt.i) == RootOf(k, t.i)
    ensures PlanRoot(MakePlan(m', k, t, kk, tt, shi))
  {
    SuccRoot(m, k, t, kk, tt, lo, hi, shi);
  }

  lemma SuccShort(m: Mem, t: Tree, tt: Tree)
    requires t.T? && tt.T? && tt.i == t.i + 1 && InMem(m, tt.i) && m[tt.i].color == tt.c
    requires (Root(tt.r) == NIL <==> tt.r.Leaf?)
    ensures tt.r.Leaf? && tt.c == Black <==> Root(tt.r) == NIL && m[t.i + 1].color == Black
  {
  }

  lemma SuccZipped(m: Mem, m': Mem, k: Ctx, t: Tree, kk: Ctx, tt: Tree, lo: int, hi: int, shi: int)
    requires Zipped(m, k, t, lo, hi) && Successor(k, t, kk, tt, hi, shi) && Zipped(m, kk, tt, tt.i, shi)
    requires tt.r.T? ==> tt.c == Black
    requires InMem(m, t.i) && InMem(m, t.i + 1) && InMem(m, kk.i)
    requires IsSh(t.i, SuccMem(m, kk.side == Left, t.i, t.l.i, t.r.i, kk.i, Root(tt.r)), m')
    ensures Zipped(m', ShCtx(tt.i, kk), ShTree(tt.i, Dyed(tt.r, tt.c)), tt.i, shi - 1)
  {
    SuccTakesOver(m, m', k, t, kk, tt, lo, hi, shi);
    ExciseZipped(m, m', kk, tt, tt.r, tt.i, shi);
  }

  /** The root is the node itself, or lies outside its subtree. */
  lemma SuccRoot(m: Mem, k: Ctx, t: Tree, kk: Ctx, tt: Tree, lo: int, hi: int, shi: int)
    requires Zipped(m, k, t, lo, hi) && Successor(k, t, kk, tt, hi, shi) && Zipped(m, kk, tt, tt.i, shi)
    requires RootOf(kk, tt.i) == RootOf(k, t.i)
    ensures var r' := RootOf(ShCtx(tt.i, kk), Root(ShTree(tt.i, Dyed(tt.r, tt.c))));
      r' == Sh(t.i, if Owner(k) == NIL then t.i + 1 else RootOf(k, t.i))
    ensures Owner(k) != NIL ==> RootOf(k, t.i) != t.i
    ensures Owner(ShCtx(tt.i, kk)) == Sh(t.i, if kk.side == Left then kk.i else t.i + 1)
  {
    ExciseRoot(m, kk, tt, tt.r, tt.i, shi);
    assert RootOf(kk, Root(tt.r)) == RootOf(k, t.i);
    if k.In? { RootOutside(m, k, t.i, lo, hi, t.i); }
    assert Linked(m, t.r, t.i, t.i + 1, hi);
  }

  lemma HeadCells(m: Mem, i: int, po: int, c: int, b: int)
    requires InMem(m, i) && InMem(m, i + 1) && InMem(m, po) && InMem(m, c) && po > i + 1 && c > i + 1
    ensures HeadMem(m, i + 1, po, c, b)[i] == m[i] && HeadMem(m, i + 1, po, c, b)[i + 1].color == m[i + 1].color
  {
  }

  method WriteSuccessor(root: RbRoot, node: Node, child: Node, parent: Node, successor: Node,
                        ghost deep: bool, ghost i: int, ghost l: int, ghost c: int, ghost po: int, ghost b: int)
    returns (rebalance: Node?)
    requires IsAt(root, node, i) && IsAt(root, successor, i + 1) && IsAt(root, child, c) && InMem(root.mem, po)
    requires IsAt(root, parent, if deep then po else i + 1) && (deep <==> child != successor)
    requires root.mem[i].left == l && InMem(root.mem, l) && l < i && root.mem[i + 1].right == b
    requires deep ==> po > i + 1 && c > i + 1
    requires b == NIL || InMem(root.mem, b)
    modifies root`mem, root`node, root.order
    ensures root.order == old(root.order) && Shows(root.order, root.mem)
    ensures root.mem == SuccMem(old(root.mem), deep, i, l, c, po, b)
    ensures root.node == if old(node.parent) == null then successor else old(root.node)
    ensures rebalance == if b == NIL && old(successor.color) == Black then parent else null
  {
    var child2 := successor.right;
    ghost var m := root.mem;
    if child != successor {
      HeadCells(m, i, po, c, b);
      HeadWrites(root, parent, successor, child, po, i + 1, c);
    }
    assert root.mem == if deep then HeadMem(m, i + 1, po, c, b) else m;
    rebalance := TailWrites(root, node, successor, parent, child2, i, i + 1, l, b, if deep then po else i + 1);
  }

  /** Going down keeps the tree balanced and its root. */
  lemma DownBalanced(k: Ctx, t: Tree)
    requires k.In? && Balanced(k.up, Around(k, t))
    ensures Balanced(k, t)
  {
  }

  /** On the way to the successor: `tt` is the right subtree of `t`, or lies to the left of
      that subtree's root; `kk` is its context. */
  ghost predicate OnTheWay(m: Mem, k: Ctx, t: Tree, kk: Ctx, tt: Tree, hi: int, shi: int) {
    && t.T? && t.l.T? && t.r.T? && tt.T? && kk.In? && shi <= hi && Zipped(m, kk, tt, t.i + 1, shi)
    && (if kk == In(Right, t.c, t.i, t.l, k) then tt == t.r && shi == hi
        else kk.side == Left && shi <= t.r.i < hi)
    && RootOf(kk, tt.i) == RootOf(k, t.i) && (Balanced(k, t) ==> Balanced(kk, tt))
  }

  lemma SetOut(m: Mem, k: Ctx, t: Tree, lo: int, hi: int)
    requires Zipped(m, k, t, lo, hi) && t.T? && t.l.T? && t.r.T?
    ensures OnTheWay(m, k, t, In(Right, t.c, t.i, t.l, k), t.r, hi, hi)
  {
    var kk := In(Right, t.c, t.i, t.l, k);
    assert Around(kk, t.r) == t && DownLo(Right, t.i, lo) == t.i + 1 && DownHi(Right, t.i, hi) == hi;
    ZippedDown(m, kk, t.r, lo, hi);
    if Balanced(k, t) { DownBalanced(kk, t.r); }
  }

  lemma StepLeft(m: Mem, k: Ctx, t: Tree, kk: Ctx, tt: Tree, hi: int, shi: int)
    requires OnTheWay(m, k, t, kk, tt, hi, shi) && tt.l.T?
    ensures OnTheWay(m, k, t, In(Left, tt.c, tt.i, tt.r, kk), tt.l, hi, tt.i)
  {
    var kk' := In(Left, tt.c, tt.i, tt.r, kk);
    assert Around(kk', tt.l) == tt && DownLo(Left, tt.i, t.i + 1) == t.i + 1 && DownHi(Left, tt.i, shi) == tt.i;
    ZippedDown(m, kk', tt.l, t.i + 1, shi);
    if Balanced(kk, tt) { DownBalanced(kk', tt.l); }
  }

  lemma WayCells(m: Mem, k: Ctx, t: Tree, kk: Ctx, tt: Tree, hi: int, shi: int)
    requires OnTheWay(m, k, t, kk, tt, hi, shi)
    ensures InMem(m, tt.i) && m[tt.i].left == Root(tt.l) && (tt.l.T? ==> InMem(m, tt.l.i))
  {
    assert Linked(m, tt.l, tt.i, t.i + 1, tt.i);
  }

  lemma WayEnds(m: Mem, k: Ctx, t: Tree, kk: Ctx, tt: Tree, hi: int, shi: int)
    requires OnTheWay(m, k, t, kk, tt, hi, shi) && tt.l.Leaf?
    ensures Successor(k, t, kk, tt, hi, shi)
  {
    assert Linked(m, tt.l, tt.i, t.i + 1, tt.i);
  }

  /** The node's successor, and the node from which its only child will hang. */
  method FindSuccessor(root: RbRoot, child: Node, ghost k: Ctx, ghost t: Tree, ghost hi: int)
    returns (parent: Node, successor: Node, ghost kk: Ctx, ghost tt: Tree, ghost shi: int)
    requires Shows(root.order, root.mem) && t.T? && OnTheWay(root.mem, k, t, In(Right, t.c, t.i, t.l, k), t.r, hi, hi)
    requires child == Nd(root.order, t.r.i)
    ensures OnTheWay(root.mem, k, t, kk, tt, hi, shi) && tt.l.Leaf?
    ensures successor == Nd(root.order, tt.i) && parent == Nd(root.order, if kk.side == Left then kk.i else tt.i)
  {
    kk, tt, shi := In(Right, t.c, t.i, t.l, k), t.r, hi;
    parent, successor := child, child;
    WayCells(root.mem, k, t, kk, tt, hi, shi);
    var tmp := child.left;
    while tmp != null
      invariant OnTheWay(root.mem, k, t, kk, tt, hi, shi) && successor == Nd(root.order, tt.i)
      invariant tmp == Nd(root.order, Root(tt.l)) && (tmp == null ==> tt.l.Leaf?)
      invariant parent == Nd(root.order, if kk.side == Left then kk.i else tt.i)
      decreases tt
    {
      StepLeft(root.mem, k, t, kk, tt, hi, shi);
      kk, tt, shi := In(Left, tt.c, tt.i, tt.r, kk), tt.l, tt.i;
      WayCells(root.mem, k, t, kk, tt, hi, shi);
      parent := successor;
      successor := tmp;
      tmp := tmp.left;
    }
  }

  /** An only child is red, its parent black. */
  lemma SingleColor(k: Ctx, t: Tree)
    requires Balanced(k, t) && t.T? && t.l.Leaf?
    ensures t.r.T? ==> t.c == Black
  {
  }

  lemma SuccReady(m: Mem, k: Ctx, t: Tree, kk: Ctx, tt: Tree, lo: int, hi: int, shi: int) returns (p: Plan)
    requires Zipped(m, k, t, lo, hi) && Balanced(k, t) && OnTheWay(m, k, t, kk, tt, hi, shi) && tt.l.Leaf?
    ensures SuccPlan(m, p) && tt.i == t.i + 1 && p == MakePlan(p.after, k, t, kk, tt, shi)
  {
    WayEnds(m, k, t, kk, tt, hi, shi);
    SuccSceneHolds(m, k, t, kk, tt, lo, hi, shi);
    SingleColor(kk, tt);
    var m' := ShMem(t.i, SuccMem(m, kk.side == Left, t.i, t.l.i, t.r.i, kk.i, Root(tt.r)));
    SuccPlanned(m, m', k, t, kk, tt, lo, hi, shi);
    p := MakePlan(m', k, t, kk, tt, shi);
  }

  lemma PlanIsBalanced(m: Mem, m': Mem, k: Ctx, t: Tree, kk: Ctx, tt: Tree, hi: int, shi: int)
    requires Balanced(k, t) && OnTheWay(m, k, t, kk, tt, hi, shi) && tt.l.Leaf?
    ensures var p := MakePlan(m', k, t, kk, tt, shi); Nearly(p.k, p.t, p.short)
  {
    ExciseBalance(tt.i, kk, tt, tt.r);
    assert Linked(m, tt.r, tt.i, tt.i + 1, shi);
  }

  lemma SuccReadyToGo(m: Mem, k: Ctx, t: Tree, kk: Ctx, tt: Tree, lo: int, hi: int, shi: int) returns (p: Plan)
    requires Zipped(m, k, t, lo, hi) && Balanced(k, t) && OnTheWay(m, k, t, kk, tt, hi, shi) && tt.l.Leaf?
    ensures SuccPlan(m, p) && Nearly(p.k, p.t, p.short) && p.i == t.i && p.child == t.r.i && p.root == RootOf(k, t.i)
    ensures tt.i == t.i + 1 && p.po == kk.i && (p.deep <==> kk.side == Left)
  {
    p := SuccReady(m, k, t, kk, tt, lo, hi, shi);
    PlanIsBalanced(m, p.after, k, t, kk, tt, hi, shi);
  }

  method LocateSuccessor(root: RbRoot, child: Node, ghost k: Ctx, ghost t: Tree, ghost lo: int, ghost hi: int)
    returns (parent: Node, successor: Node, ghost p: Plan)
    requires At(root, k, t, lo, hi) && Balanced(k, t) && t.T? && t.l.T? && t.r.T? && child == Nd(root.order, t.r.i)
    ensures SuccPlan(root.mem, p) && Nearly(p.k, p.t, p.short)
    ensures p.i == t.i && p.child == t.r.i && p.root == RootOf(k, t.i)
    ensures successor == Nd(root.order, p.i + 1) && parent == Nd(root.order, if p.deep then p.po else p.i + 1)
  {
    SetOut(root.mem, k, t, lo, hi);
    ghost var kk, tt, shi;
    parent, successor, kk, tt, shi := FindSuccessor(root, child, k, t, hi);
    p := SuccReadyToGo(root.mem, k, t, kk, tt, lo, hi, shi);
  }

  /** The writes, before the node is forgotten. */
  method SpliceWrites(root: RbRoot, node: Node, child: Node, parent: Node, successor: Node, ghost p: Plan)
    returns (rebalance: Node?)
    requires PlanScene(root.mem, p) && PlanRoot(p) && Shows(root.order, root.mem) && root.node == Nd(root.order, p.root)
    requires IsAt(root, node, p.i) && IsAt(root, successor, p.i + 1) && IsAt(root, child, p.child)
    requires parent == Nd(root.order, if p.deep then p.po else p.i + 1)
    modifies root`mem, root`node, root.order
    ensures root.order == old(root.order) && Shows(root.order, root.mem)
    ensures root.mem == SuccMem(old(root.mem), p.deep, p.i, p.l, p.child, p.po, p.b)
    ensures root.node == Nd(Without(root.order, p.i), RootOf(p.k, Root(p.t)))
    ensures rebalance == if p.short then Nd(Without(root.order, p.i), Owner(p.k)) else null
  {
    rebalance := WriteSuccessor(root, node, child, parent, successor, p.deep, p.i, p.l, p.child, p.po, p.b);
    NdWithout(root.order, p.i, if p.q == NIL then p.i + 1 else p.root);
    NdWithout(root.order, p.i, if p.deep then p.po else p.i + 1);
  }

  method SpliceSuccessor(root: RbRoot, node: Node, child: Node, parent: Node, successor: Node, ghost p: Plan)
    returns (rebalance: Node?)
    requires SuccPlan(root.mem, p) && root.node == Nd(root.order, p.root)
    requires IsAt(root, node, p.i) && IsAt(root, successor, p.i + 1) && IsAt(root, child, p.child)
    requires parent == Nd(root.order, if p.deep then p.po else p.i + 1)
    modifies root`mem, root`node, root`order, root.order
    ensures root.order == old(Without(root.order, p.i)) && At(root, p.k, p.t, p.lo, p.hi)
    ensures rebalance == if p.short then Nd(root.order, Owner(p.k)) else null
  {
    rebalance := SpliceWrites(root, node, child, parent, successor, p);
    Retire(root, p.i, p.after, p.k, p.t, p.lo, p.hi);
  }

  method TakeOut(root: RbRoot, node: Node, child: Node, ghost k: Ctx, ghost t: Tree, ghost lo: int, ghost hi: int)
    returns (rebalance: Node?, ghost p: Plan)
    requires At(root, k, t, lo, hi) && Balanced(k, t) && t.T? && t.l.T? && t.r.T?
    requires node == Nd(root.order, t.i) && child == Nd(root.order, t.r.i)
    modifies root`mem, root`node, root`order, root.order
    ensures root.order == old(Without(root.order, t.i)) && At(root, p.k, p.t, p.lo, p.hi) && Nearly(p.k, p.t, p.short)
    ensures rebalance == if p.short then Nd(root.order, Owner(p.k)) else null
  {
    var parent, successor;
    parent, successor, p := LocateSuccessor(root, child, k, t, lo, hi);
    rebalance := SpliceSuccessor(root, node, child, parent, successor, p);
  }

  /** `rb_erase` of a node with two children. */
  method EraseDouble(root: RbRoot, node: Node, child: Node, ghost k: Ctx, ghost t: Tree, ghost lo: int, ghost hi: int)
    requires At(root, k, t, lo, hi) && Balanced(k, t) && t.T? && t.l.T? && t.r.T?
    requires node == Nd(root.order, t.i) && child == Nd(root.order, t.r.i)
    modifies root, root.order
    ensures root.order == old(Without(root.order, t.i)) && root.Valid() && IsRb(root.tree)
  {
    WithoutMembers(root.order, t.i);
    ghost var p;
    var rebalance;
    rebalance, p := TakeOut(root, node, child, k, t, lo, hi);
    Finish(root, rebalance, p.k, p.t, p.lo, p.hi, p.short);
  }

  // --- rb_erase -----------------------------------------------------------------------------

  /** `rb_erase`: takes the node out; the others stay in order and make up a red-black tree. */
  method Erase(root: RbRoot, node: Node, ghost i: int)
    requires root.Valid() && IsRb(root.tree) && node == Nd(root.order, i)
    modifies root, root.order
    ensures root.order == old(Without(root.order, i)) && root.Valid() && IsRb(root.tree)
  {
    ghost var k, t, lo, hi := FocusAt(root, i);
    ChildrenOf(root, k, t, lo, hi);
    var child, tmp := node.right, node.left;
    if tmp == null {
      EraseSingle(root, node, child, k, t, t.r, lo, hi);
    } else if child == null {
      EraseSingle(root, node, tmp, k, t, t.l, lo, hi);
    } else {
      EraseDouble(root, node, child, k, t, lo, hi);
    }
  }
}
