/** What the colouring buys: searches are short. */
module RbTreeHeight {
  import opened RbTreeModel

  /** Nodes on the longest path down. */
  ghost function Height(t: Tree): nat {
    match t
    case Leaf => 0
    case T(l, _, _, r) => 1 + if Height(l) >= Height(r) then Height(l) else Height(r)
  }

  /** Nodes on the shortest path down to a missing child. */
  ghost function Shortest(t: Tree): nat {
    match t
    case Leaf => 0
    case T(l, _, _, r) => 1 + if Shortest(l) <= Shortest(r) then Shortest(l) else Shortest(r)
  }

  ghost function Pow2(n: nat): nat { if n == 0 then 1 else 2 * Pow2(n - 1) }

  /** The longest path alternates red and black, the shortest is all black. */
  lemma {:induction false} PathBounds(t: Tree)
    requires Even(t) && NoRedRed(t)
    ensures Height(t) <= 2 * Bh(t) + (if Col(t) == Red then 1 else 0)
    ensures Bh(t) <= Shortest(t)
  {
    if t.T? {
      PathBounds(t.l);
      PathBounds(t.r);
    }
  }

  lemma {:induction false} SizeBound(t: Tree)
    requires Even(t)
    ensures Pow2(Bh(t)) <= Size(t) + 1
  {
    if t.T? {
      SizeBound(t.l);
      SizeBound(t.r);
    }
  }

  lemma {:induction false} Pow2Grows(a: nat, b: nat)
    requires a <= b
    ensures Pow2(a) <= Pow2(b)
    decreases b
  {
    if a < b { Pow2Grows(a, b - 1); }
  }

  lemma {:induction false} Pow2Twice(n: nat)
    ensures Pow2(2 * n) == Pow2(n) * Pow2(n)
  {
    if n > 0 {
      Pow2Twice(n - 1);
      assert Pow2(2 * n) == 2 * Pow2(2 * n - 1) == 4 * Pow2(2 * (n - 1));
      var p := Pow2(n - 1);
      assert (2 * p) * (2 * p) == 4 * (p * p);
    }
  }

  lemma Squares(a: nat, b: nat)
    requires a <= b
    ensures a * a <= b * b
  {
    assert a * a <= a * b <= b * b;
  }

  /** No path is more than twice as long as another, and none is longer than twice the
      binary logarithm of the number of nodes plus one. */
  lemma SearchBound(t: Tree)
    requires IsRb(t)
    ensures Height(t) <= 2 * Shortest(t)
    ensures Pow2(Height(t)) <= (Size(t) + 1) * (Size(t) + 1)
  {
    PathBounds(t);
    SizeBound(t);
    Pow2Grows(Height(t), 2 * Bh(t));
    Pow2Twice(Bh(t));
    Squares(Pow2(Bh(t)), Size(t) + 1);
  }
}
