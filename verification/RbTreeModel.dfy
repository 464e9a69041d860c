/** Red-black trees as shapes: trees, trees with a hole, their balance, and what it
    means for pointers in memory to spell out such a tree.

    Nodes are named by their place in the in-order sequence, which no rebalancing
    step may change; `NIL` stands for the null pointer. A subtree therefore holds a
    range of places, and two subtrees are apart when their ranges are. */
module RbTreeModel {

  const NIL := -1

  datatype Color = Red | Black

  datatype Side = Left | Right {
    function Other(): Side { if Left? then Right else Left }
  }

  datatype Tree = Leaf | T(l: Tree, c: Color, i: int, r: Tree)

  /** A tree with a hole: the path from the hole up to the root. `side` is the side
      of `i` on which the hole lies, `sib` the subtree on the other side. */
  datatype Ctx = Top | In(side: Side, c: Color, i: int, sib: Tree, up: Ctx)

  /** Node `i` with `near` on side `d` and `far` on the other side. */
  ghost function Mk(d: Side, c: Color, i: int, near: Tree, far: Tree): Tree {
    if d == Left then T(near, c, i, far) else T(far, c, i, near)
  }

  /** The subtree of the innermost node of `k`, with `t` in the hole. */
  ghost function Around(k: Ctx, t: Tree): Tree
    requires k.In?
  {
    Mk(k.side, k.c, k.i, t, k.sib)
  }

  ghost function Plug(k: Ctx, t: Tree): Tree
    decreases k
  {
    if k.Top? then t else Plug(k.up, Around(k, t))
  }

  ghost function Root(t: Tree): int { if t.Leaf? then NIL else t.i }

  ghost function Col(t: Tree): Color { if t.Leaf? then Black else t.c }

  ghost function Owner(k: Ctx): int { if k.Top? then NIL else k.i }

  ghost function RootOf(k: Ctx, hole: int): int {
    if k.Top? then hole else RootOf(k.up, k.i)
  }

  ghost function Size(t: Tree): nat {
    match t
    case Leaf => 0
    case T(l, _, _, r) => Size(l) + 1 + Size(r)
  }

  // --- Balance ------------------------------------------------------------------

  ghost function B(c: Color): nat { if c == Black then 1 else 0 }

  /** Black nodes on the leftmost path. */
  ghost function Bh(t: Tree): nat {
    match t
    case Leaf => 0
    case T(l, c, _, _) => Bh(l) + B(c)
  }

  /** Every path from the root to a leaf has the same number of black nodes. */
  ghost predicate Even(t: Tree) {
    match t
    case Leaf => true
    case T(l, _, _, r) => Bh(l) == Bh(r) && Even(l) && Even(r)
  }

  /** Both children of every red node are black. */
  ghost predicate NoRedRed(t: Tree) {
    match t
    case Leaf => true
    case T(l, c, _, r) =>
      && (c == Red ==> Col(l) == Black && Col(r) == Black)
      && NoRedRed(l) && NoRedRed(r)
  }

  ghost predicate IsRb(t: Tree) { Even(t) && NoRedRed(t) && Col(t) == Black }

  /** Plugging an even tree of black height `h` gives an even tree. */
  ghost predicate EvenCtx(k: Ctx, h: nat)
    decreases k
  {
    match k
    case Top => true
    case In(_, c, _, sib, up) => Even(sib) && Bh(sib) == h && EvenCtx(up, h + B(c))
  }

  /** Plugging a subtree whose root has colour `col` leaves no two red nodes in a
      row and a black root. */
  ghost predicate NoRedRedCtx(k: Ctx, col: Color)
    decreases k
  {
    match k
    case Top => col == Black
    case In(_, c, _, sib, up) =>
      && (c == Red ==> col == Black && Col(sib) == Black)
      && NoRedRed(sib) && NoRedRedCtx(up, c)
  }

  /** `Plug(k, t)` is a red-black tree. */
  ghost predicate Balanced(k: Ctx, t: Tree) {
    Even(t) && NoRedRed(t) && EvenCtx(k, Bh(t)) && NoRedRedCtx(k, Col(t))
  }

  lemma {:induction false} RbPlug(k: Ctx, t: Tree)
    ensures IsRb(Plug(k, t)) <==> Balanced(k, t)
    decreases k
  {
    if k.In? { RbPlug(k.up, Around(k, t)); }
  }

  // --- Memory -------------------------------------------------------------------

  datatype Cell = Cell(left: int, right: int, parent: int, color: Color) {
    ghost function Child(d: Side): int { if d == Left then left else right }
    ghost function SetChild(d: Side, x: int): Cell {
      if d == Left then this.(left := x) else this.(right := x)
    }
  }

  type Mem = seq<Cell>

  /** The pointers in `m` spell out `t`, hanging below `p` and holding the places
      from `lo` up to `hi`. */
  ghost predicate Linked(m: Mem, t: Tree, p: int, lo: int, hi: int)
    decreases t
  {
    match t
    case Leaf => lo == hi
    case T(l, c, i, r) =>
      && 0 <= lo <= i < hi <= |m|
      && m[i] == Cell(Root(l), Root(r), p, c)
      && Linked(m, l, i, lo, i) && Linked(m, r, i, i + 1, hi)
  }

  /** The places of the sibling, and of the owner's whole subtree, of a hole with the
      places from `lo` to `hi`. */
  ghost function SibLo(k: Ctx, lo: int, hi: int): int
    requires k.In?
  {
    if k.side == Left then hi + 1 else lo - 1 - Size(k.sib)
  }

  ghost function UpLo(k: Ctx, lo: int): int
    requires k.In?
  {
    if k.side == Left then lo else lo - 1 - Size(k.sib)
  }

  ghost function UpHi(k: Ctx, hi: int): int
    requires k.In?
  {
    if k.side == Left then hi + 1 + Size(k.sib) else hi
  }

  /** The pointers in `m` spell out `k`, with the node `hole` in a hole of the places
      from `lo` to `hi`. */
  ghost predicate LinkedCtx(m: Mem, k: Ctx, hole: int, lo: int, hi: int)
    decreases k
  {
    match k
    case Top => lo == 0 && hi == |m|
    case In(d, c, i, sib, up) =>
      && i == (if d == Left then hi else lo - 1) && 0 <= i < |m|
      && m[i].Child(d) == hole && m[i].Child(d.Other()) == Root(sib)
      && m[i].parent == Owner(up) && m[i].color == c
      && Linked(m, sib, i, SibLo(k, lo, hi), SibLo(k, lo, hi) + Size(sib))
      && LinkedCtx(m, up, i, UpLo(k, lo), UpHi(k, hi))
  }

  /** `m` holds the whole tree `Plug(k, t)`, seen from `t`. */
  ghost predicate Zipped(m: Mem, k: Ctx, t: Tree, lo: int, hi: int) {
    lo <= hi && Linked(m, t, Owner(k), lo, hi) && LinkedCtx(m, k, Root(t), lo, hi)
  }

  lemma {:induction false} LinkedSize(m: Mem, t: Tree, p: int, lo: int, hi: int)
    requires Linked(m, t, p, lo, hi)
    ensures hi - lo == Size(t)
    decreases t
  {
    if t.T? {
      LinkedSize(m, t.l, t.i, lo, t.i);
      LinkedSize(m, t.r, t.i, t.i + 1, hi);
    }
  }

  /** One level up, the subtree seen is the owner's. */
  lemma ZippedUp(m: Mem, k: Ctx, t: Tree, lo: int, hi: int)
    requires k.In? && Zipped(m, k, t, lo, hi)
    ensures Zipped(m, k.up, Around(k, t), UpLo(k, lo), UpHi(k, hi))
  {
  }

  /** The places below node `i` on side `d`, within those from `lo` to `hi`. */
  ghost function DownLo(d: Side, i: int, lo: int): int { if d == Left then lo else i + 1 }

  ghost function DownHi(d: Side, i: int, hi: int): int { if d == Left then i else hi }

  lemma ZippedDown(m: Mem, k: Ctx, t: Tree, lo: int, hi: int)
    requires k.In? && Zipped(m, k.up, Around(k, t), lo, hi)
    ensures Zipped(m, k, t, DownLo(k.side, k.i, lo), DownHi(k.side, k.i, hi))
  {
    LinkedSize(m, k.sib, k.i, if k.side == Left then k.i + 1 else lo, if k.side == Left then hi else k.i);
  }

  lemma {:induction false} ZippedTop(m: Mem, k: Ctx, t: Tree, lo: int, hi: int)
    requires Zipped(m, k, t, lo, hi)
    ensures Zipped(m, Top, Plug(k, t), 0, |m|) && Root(Plug(k, t)) == RootOf(k, Root(t))
    decreases k
  {
    if k.In? {
      ZippedUp(m, k, t, lo, hi);
      ZippedTop(m, k.up, Around(k, t), UpLo(k, lo), UpHi(k, hi));
    }
  }

  /** The tree seen from the node at place `i`. */
  lemma {:induction false} Focus(m: Mem, k0: Ctx, t0: Tree, lo0: int, hi0: int, i: int) returns (k: Ctx, t: Tree,
                                 lo: int, hi: int)
    requires Zipped(m, k0, t0, lo0, hi0) && lo0 <= i < hi0
    ensures Zipped(m, k, t, lo, hi) && t.T? && t.i == i && Plug(k, t) == Plug(k0, t0)
    decreases t0
  {
    if i == t0.i {
      k, t, lo, hi := k0, t0, lo0, hi0;
    } else if i < t0.i {
      var k1 := In(Left, t0.c, t0.i, t0.r, k0);
      assert Around(k1, t0.l) == t0;
      ZippedDown(m, k1, t0.l, lo0, hi0);
      k, t, lo, hi := Focus(m, k1, t0.l, lo0, t0.i, i);
    } else {
      var k1 := In(Right, t0.c, t0.i, t0.l, k0);
      assert Around(k1, t0.r) == t0;
      ZippedDown(m, k1, t0.r, lo0, hi0);
      k, t, lo, hi := Focus(m, k1, t0.r, t0.i + 1, hi0, i);
    }
  }

  // --- Pointers go both ways -----------------------------------------------------------------

  ghost predicate ChildOk(m: Mem, j: int, q: int)
    requires InMem(m, j)
  {
    q == NIL || (InMem(m, q) && m[q].parent == j)
  }

  ghost predicate ParentOk(m: Mem, j: int)
    requires InMem(m, j)
  {
    var p := m[j].parent;
    p == NIL || (InMem(m, p) && (m[p].left == j || m[p].right == j))
  }

  ghost predicate Consistent(m: Mem) {
    forall j {:trigger m[j]} :: InMem(m, j) ==>
      ChildOk(m, j, m[j].left) && ChildOk(m, j, m[j].right) && ParentOk(m, j)
  }

  lemma {:induction false} LinkedConsistent(m: Mem, t: Tree, p: int, lo: int, hi: int, j: int)
    requires Linked(m, t, p, lo, hi) && lo <= j < hi && InMem(m, j)
    ensures ChildOk(m, j, m[j].left) && ChildOk(m, j, m[j].right)
    ensures if j == Root(t) then m[j].parent == p else m[j].parent != NIL && ParentOk(m, j)
    decreases t
  {
    if j < t.i {
      LinkedConsistent(m, t.l, t.i, lo, t.i, j);
    } else if j > t.i {
      LinkedConsistent(m, t.r, t.i, t.i + 1, hi, j);
    } else {
      assert Linked(m, t.l, t.i, lo, t.i) && Linked(m, t.r, t.i, t.i + 1, hi);
    }
  }

  lemma ZippedConsistent(m: Mem, k: Ctx, t: Tree, lo: int, hi: int)
    requires Zipped(m, k, t, lo, hi)
    ensures Consistent(m)
  {
    ZippedTop(m, k, t, lo, hi);
    forall j {:trigger m[j]} | InMem(m, j)
      ensures ChildOk(m, j, m[j].left) && ChildOk(m, j, m[j].right) && ParentOk(m, j)
    {
      LinkedConsistent(m, Plug(k, t), NIL, 0, |m|, j);
    }
  }

  // --- Framing --------------------------------------------------------------------

  /** `m'` leaves the places from `lo` to `hi` as they are in `m`, except `ex`. */
  ghost predicate Same(m: Mem, m': Mem, lo: int, hi: int, ex: int := NIL) {
    |m| == |m'| && forall j :: 0 <= j < |m| && lo <= j < hi && j != ex ==> m'[j] == m[j]
  }

  /** The same for the places outside of that range. */
  ghost predicate SameAround(m: Mem, m': Mem, lo: int, hi: int, ex: int := NIL) {
    |m| == |m'| && forall j :: 0 <= j < |m| && !(lo <= j < hi) && j != ex ==> m'[j] == m[j]
  }

  lemma {:induction false} Frame(m: Mem, m': Mem, t: Tree, p: int, lo: int, hi: int)
    requires Linked(m, t, p, lo, hi) && Same(m, m', lo, hi)
    ensures Linked(m', t, p, lo, hi)
    decreases t
  {
    if t.T? {
      Frame(m, m', t.l, t.i, lo, t.i);
      Frame(m, m', t.r, t.i, t.i + 1, hi);
    }
  }

  lemma {:induction false} FrameCtx(m: Mem, m': Mem, k: Ctx, hole: int, lo: int, hi: int)
    requires LinkedCtx(m, k, hole, lo, hi) && lo <= hi && SameAround(m, m', lo, hi)
    ensures LinkedCtx(m', k, hole, lo, hi)
    decreases k
  {
    if k.In? {
      Frame(m, m', k.sib, k.i, SibLo(k, lo, hi), SibLo(k, lo, hi) + Size(k.sib));
      FrameCtx(m, m', k.up, k.i, UpLo(k, lo), UpHi(k, hi));
    }
  }

  /** Replacing the subtree in the hole changes one pointer of the context. */
  lemma Rehang(m: Mem, m': Mem, k: Ctx, hole: int, hole': int, lo: int, hi: int)
    requires LinkedCtx(m, k, hole, lo, hi) && lo <= hi && SameAround(m, m', lo, hi, Owner(k))
    requires k.In? ==> m'[k.i] == m[k.i].SetChild(k.side, hole')
    ensures LinkedCtx(m', k, hole', lo, hi)
  {
    if k.In? {
      Frame(m, m', k.sib, k.i, SibLo(k, lo, hi), SibLo(k, lo, hi) + Size(k.sib));
      FrameCtx(m, m', k.up, k.i, UpLo(k, lo), UpHi(k, hi));
    }
  }

  /** Moving a subtree: only its root's parent changes. */
  lemma Move(m: Mem, m': Mem, t: Tree, p: int, q: int, lo: int, hi: int)
    requires Linked(m, t, p, lo, hi) && Same(m, m', lo, hi, Root(t))
    requires t.T? ==> m'[t.i] == m[t.i].(parent := q)
    ensures Linked(m', t, q, lo, hi)
  {
    if t.T? {
      Frame(m, m', t.l, t.i, lo, t.i);
      Frame(m, m', t.r, t.i, t.i + 1, hi);
    }
  }

  // --- Elementary steps on memory ---------------------------------------------------

  ghost predicate InMem(m: Mem, i: int) { 0 <= i < |m| }

  ghost function SetColor(m: Mem, i: int, c: Color): Mem
    requires InMem(m, i)
  {
    m[i := m[i].(color := c)]
  }

  ghost function SetParent(m: Mem, i: int, p: int): Mem {
    if InMem(m, i) then m[i := m[i].(parent := p)] else m
  }

  ghost function SetHole(m: Mem, k: Ctx, i: int): Mem {
    if k.In? && InMem(m, k.i) then m[k.i := m[k.i].SetChild(k.side, i)] else m
  }

  /** `t` with the node at place `j` painted `c`. */
  ghost function Paint(t: Tree, j: int, c: Color): Tree {
    match t
    case Leaf => t
    case T(l, c0, i, r) =>
      if j == i then T(l, c, i, r)
      else if j < i then T(Paint(l, j, c), c0, i, r)
      else T(l, c0, i, Paint(r, j, c))
  }

  lemma {:induction false} PaintLinked(m: Mem, t: Tree, j: int, c: Color, p: int, lo: int, hi: int)
    requires Linked(m, t, p, lo, hi) && lo <= j < hi && InMem(m, j)
    ensures Linked(SetColor(m, j, c), Paint(t, j, c), p, lo, hi) && Root(Paint(t, j, c)) == Root(t)
    decreases t
  {
    if j < t.i {
      PaintLinked(m, t.l, j, c, t.i, lo, t.i);
    } else if j > t.i {
      PaintLinked(m, t.r, j, c, t.i, t.i + 1, hi);
    }
    PaintStep(m, t, j, c, p, lo, hi);
  }

  lemma PaintStep(m: Mem, t: Tree, j: int, c: Color, p: int, lo: int, hi: int)
    requires Linked(m, t, p, lo, hi) && t.T? && lo <= j < hi && InMem(m, j)
    ensures var m' := SetColor(m, j, c);
      && (j < t.i && Linked(m', Paint(t.l, j, c), t.i, lo, t.i) && Root(Paint(t.l, j, c)) == Root(t.l) ==>
            Linked(m', Paint(t, j, c), p, lo, hi))
      && (j > t.i && Linked(m', Paint(t.r, j, c), t.i, t.i + 1, hi) && Root(Paint(t.r, j, c)) == Root(t.r) ==>
            Linked(m', Paint(t, j, c), p, lo, hi))
      && (j == t.i ==> Linked(m', Paint(t, j, c), p, lo, hi))
  {
    var m' := SetColor(m, j, c);
    if j >= t.i { Frame(m, m', t.l, t.i, lo, t.i); }
    if j <= t.i { Frame(m, m', t.r, t.i, t.i + 1, hi); }
  }

  lemma PaintZipped(m: Mem, k: Ctx, t: Tree, j: int, c: Color, lo: int, hi: int)
    requires Zipped(m, k, t, lo, hi) && lo <= j < hi && InMem(m, j)
    ensures Zipped(SetColor(m, j, c), k, Paint(t, j, c), lo, hi)
  {
    PaintLinked(m, t, j, c, Owner(k), lo, hi);
    FrameCtx(m, SetColor(m, j, c), k, Root(t), lo, hi);
  }

  /** Rotation at `x`, whose child `y` on side `d` takes its place: `b`, between the
      two, changes hands. The new colours are `cy` and `cx`. */
  ghost function Rotate(m: Mem, k: Ctx, d: Side, x: int, y: int, b: int, cy: Color, cx: Color): Mem
    requires InMem(m, x) && InMem(m, y)
  {
    var m1 := m[y := m[y].SetChild(d.Other(), x).(parent := Owner(k), color := cy)];
    var m2 := m1[x := m1[x].SetChild(d, b).(parent := y, color := cx)];
    SetHole(SetParent(m2, b, x), k, y)
  }

  /** The same, cell by cell. */
  ghost predicate Rotated(m: Mem, m': Mem, k: Ctx, d: Side, x: int, y: int, b: int, cy: Color, cx: Color) {
    && |m| == |m'| && InMem(m, x) && InMem(m, y)
    && m'[y] == m[y].SetChild(d.Other(), x).(parent := Owner(k), color := cy)
    && m'[x] == m[x].SetChild(d, b).(parent := y, color := cx)
    && (InMem(m, b) ==> m'[b] == m[b].(parent := x))
    && (k.In? && InMem(m, k.i) ==> m'[k.i] == m[k.i].SetChild(k.side, y))
    && forall j {:trigger m'[j]} :: InMem(m, j) && j != x && j != y && j != b && j != Owner(k) ==> m'[j] == m[j]
  }

  lemma RotateIsRotated(m: Mem, k: Ctx, d: Side, x: int, y: int, b: int, cy: Color, cx: Color)
    requires InMem(m, x) && InMem(m, y) && x != y && b != x && b != y
    requires k.In? ==> k.i != x && k.i != y && k.i != b
    ensures Rotated(m, Rotate(m, k, d, x, y, b, cy, cx), k, d, x, y, b, cy, cx)
  {
  }

  lemma RotateRight(m: Mem, m': Mem, p: int, k: Ctx, a: Tree, y: int, b: Tree, x: int, c: Tree,
                    cy: Color, cx: Color, lo: int, hi: int)
    requires 0 <= lo <= y < x < hi <= |m| && p == Owner(k) && !(lo <= p < hi)
    requires Linked(m, a, y, lo, y) && Linked(m, b, y, y + 1, x) && Linked(m, c, x, x + 1, hi)
    requires m[y].left == Root(a) && m[x].right == Root(c)
    requires Rotated(m, m', k, Left, x, y, Root(b), cy, cx)
    ensures Linked(m', T(a, cy, y, T(b, cx, x, c)), p, lo, hi)
  {
    assert m'[x] == Cell(Root(b), Root(c), y, cx) && m'[y] == Cell(Root(a), x, p, cy);
    Frame(m, m', a, y, lo, y);
    Move(m, m', b, y, x, y + 1, x);
    Frame(m, m', c, x, x + 1, hi);
    JoinRight(m', p, a, y, b, x, c, cy, cx, lo, hi);
  }

  lemma JoinRight(m: Mem, p: int, a: Tree, y: int, b: Tree, x: int, c: Tree, cy: Color, cx: Color, lo: int, hi: int)
    requires 0 <= lo <= y < x < hi <= |m|
    requires Linked(m, a, y, lo, y) && Linked(m, b, x, y + 1, x) && Linked(m, c, x, x + 1, hi)
    requires m[x] == Cell(Root(b), Root(c), y, cx) && m[y] == Cell(Root(a), x, p, cy)
    ensures Linked(m, T(a, cy, y, T(b, cx, x, c)), p, lo, hi)
  {
    assert Linked(m, T(b, cx, x, c), y, y + 1, hi);
  }

  lemma JoinLeft(m: Mem, p: int, a: Tree, x: int, b: Tree, y: int, c: Tree, cx: Color, cy: Color, lo: int, hi: int)
    requires 0 <= lo <= x < y < hi <= |m|
    requires Linked(m, a, x, lo, x) && Linked(m, b, x, x + 1, y) && Linked(m, c, y, y + 1, hi)
    requires m[x] == Cell(Root(a), Root(b), y, cx) && m[y] == Cell(x, Root(c), p, cy)
    ensures Linked(m, T(T(a, cx, x, b), cy, y, c), p, lo, hi)
  {
    assert Linked(m, T(a, cx, x, b), y, lo, y);
  }

  lemma RotateLeft(m: Mem, m': Mem, p: int, k: Ctx, a: Tree, x: int, b: Tree, y: int, c: Tree,
                   cx: Color, cy: Color, lo: int, hi: int)
    requires 0 <= lo <= x < y < hi <= |m| && p == Owner(k) && !(lo <= p < hi)
    requires Linked(m, a, x, lo, x) && Linked(m, b, y, x + 1, y) && Linked(m, c, y, y + 1, hi)
    requires m[x].left == Root(a) && m[y].right == Root(c)
    requires Rotated(m, m', k, Right, x, y, Root(b), cy, cx)
    ensures Linked(m', T(T(a, cx, x, b), cy, y, c), p, lo, hi)
  {
    assert m'[x] == Cell(Root(a), Root(b), y, cx) && m'[y] == Cell(x, Root(c), p, cy);
    Frame(m, m', a, x, lo, x);
    Move(m, m', b, y, x, x + 1, y);
    Frame(m, m', c, y, y + 1, hi);
    JoinLeft(m', p, a, x, b, y, c, cx, cy, lo, hi);
  }

  lemma RotatedZipped(m: Mem, m': Mem, k: Ctx, d: Side, a: Tree, y: int, b: Tree, x: int, c: Tree,
                      oy: Color, ox: Color, cy: Color, cx: Color, lo: int, hi: int)
    requires Zipped(m, k, Mk(d, ox, x, Mk(d, oy, y, a, b), c), lo, hi)
    requires Rotated(m, m', k, d, x, y, Root(b), cy, cx)
    ensures Zipped(m', k, Mk(d, cy, y, a, Mk(d, cx, x, b, c)), lo, hi)
  {
    if d == Left {
      assert Linked(m, T(a, oy, y, b), x, lo, x);
      RotateRight(m, m', Owner(k), k, a, y, b, x, c, cy, cx, lo, hi);
    } else {
      assert Linked(m, T(b, oy, y, a), x, x + 1, hi);
      RotateLeft(m, m', Owner(k), k, c, x, b, y, a, cx, cy, lo, hi);
    }
    RotatePlaces(m, d, a, y, b, x, c, Owner(k), oy, ox, lo, hi);
    Rehang(m, m', k, x, y, lo, hi);
  }

  lemma RotateZipped(m: Mem, k: Ctx, d: Side, a: Tree, y: int, b: Tree, x: int, c: Tree,
                     oy: Color, ox: Color, cy: Color, cx: Color, lo: int, hi: int)
    requires Zipped(m, k, Mk(d, ox, x, Mk(d, oy, y, a, b), c), lo, hi)
    ensures InMem(m, x) && InMem(m, y)
    ensures Zipped(Rotate(m, k, d, x, y, Root(b), cy, cx), k, Mk(d, cy, y, a, Mk(d, cx, x, b, c)), lo, hi)
  {
    RotatePlaces(m, d, a, y, b, x, c, Owner(k), oy, ox, lo, hi);
    RotateIsRotated(m, k, d, x, y, Root(b), cy, cx);
    RotatedZipped(m, Rotate(m, k, d, x, y, Root(b), cy, cx), k, d, a, y, b, x, c, oy, ox, cy, cx, lo, hi);
  }

  lemma RotatePlaces(m: Mem, d: Side, a: Tree, y: int, b: Tree, x: int, c: Tree, p: int,
                     oy: Color, ox: Color, lo: int, hi: int)
    requires Linked(m, Mk(d, ox, x, Mk(d, oy, y, a, b), c), p, lo, hi)
    ensures lo <= x < hi && lo <= y < hi && (b.T? ==> lo <= b.i < hi) && x != y && Root(b) != x && Root(b) != y
    ensures 0 <= lo && hi <= |m|
  {
    if d == Left {
      assert Linked(m, T(a, oy, y, b), x, lo, x);
      assert Linked(m, b, y, y + 1, x);
    } else {
      assert Linked(m, T(b, oy, y, a), x, x + 1, hi);
      assert Linked(m, b, y, x + 1, y);
    }
  }
}
