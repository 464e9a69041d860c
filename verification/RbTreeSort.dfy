/** Sorting by moving every node from one tree to another. */
module RbTreeSort {
  import opened RbTreeModel
  import opened RbTreeHeap
  import opened RbTreeLink
  import opened RbTreeSplice
  import opened RbTreeWalk

  /** One sort dimension: the statistic it compares. */
  type Key = Node -> real

  /** The first dimension that tells the two apart decides. */
  function Cmp(keys: seq<Key>, a: Node, b: Node): int {
    if keys == [] then 0
    else if keys[0](a) < keys[0](b) then -1
    else if keys[0](a) > keys[0](b) then 1
    else Cmp(keys[1..], a, b)
  }

  lemma {:induction false} CmpSwap(keys: seq<Key>, a: Node, b: Node)
    ensures Cmp(keys, a, b) == -Cmp(keys, b, a)
  {
    if keys != [] { CmpSwap(keys[1..], a, b); }
  }

  lemma {:induction false} CmpTransitive(keys: seq<Key>, a: Node, b: Node, c: Node)
    requires Cmp(keys, a, b) >= 0 && Cmp(keys, b, c) >= 0
    ensures Cmp(keys, a, c) >= 0
    ensures Cmp(keys, a, b) > 0 || Cmp(keys, b, c) > 0 ==> Cmp(keys, a, c) > 0
  {
    if keys != [] && keys[0](a) == keys[0](b) && keys[0](b) == keys[0](c) {
      CmpTransitive(keys[1..], a, b, c);
    }
  }

  ghost predicate Ties(key: Key, a: Node, b: Node) { key(a) == key(b) }

  /** No dimension tells the two apart. */
  ghost predicate Alike(keys: seq<Key>, a: Node, b: Node) {
    forall k :: 0 <= k < |keys| ==> Ties(keys[k], a, b)
  }

  /** In the first dimension that tells the two apart, `a` is larger. */
  ghost predicate Outranks(keys: seq<Key>, a: Node, b: Node) {
    exists k :: 0 <= k < |keys| && keys[k](a) > keys[k](b) && Alike(keys[..k], a, b)
  }

  lemma OutranksMore(keys: seq<Key>, a: Node, b: Node)
    requires keys != [] && keys[0](a) == keys[0](b)
    ensures Alike(keys, a, b) <==> Alike(keys[1..], a, b)
    ensures Outranks(keys, a, b) <==> Outranks(keys[1..], a, b)
  {
    var rest := keys[1..];
    assert forall k :: 0 <= k < |rest| ==> rest[k] == keys[k + 1];
    if Outranks(keys, a, b) {
      var k :| 0 <= k < |keys| && keys[k](a) > keys[k](b) && Alike(keys[..k], a, b);
      assert rest[k - 1] == keys[k];
      var before := rest[..k - 1];
      forall m | 0 <= m < |before|
        ensures Ties(before[m], a, b)
      {
        assert keys[..k][m + 1] == before[m];
      }
    }
    if Outranks(rest, a, b) {
      var k :| 0 <= k < |rest| && rest[k](a) > rest[k](b) && Alike(rest[..k], a, b);
      assert rest[k] == keys[k + 1];
      var before := keys[..k + 1];
      forall m | 0 <= m < |before|
        ensures Ties(before[m], a, b)
      {
        if m > 0 { assert before[m] == rest[..k][m - 1]; }
      }
    }
  }

  /** What the comparison says. */
  lemma {:induction false} CmpMeans(keys: seq<Key>, a: Node, b: Node)
    ensures Cmp(keys, a, b) > 0 <==> Outranks(keys, a, b)
    ensures Cmp(keys, a, b) == 0 <==> Alike(keys, a, b)
  {
    if keys != [] {
      if keys[0](a) == keys[0](b) {
        CmpMeans(keys[1..], a, b);
        OutranksMore(keys, a, b);
      } else {
        assert !Ties(keys[0], a, b);
        forall k | 0 < k < |keys|
          ensures !Alike(keys[..k], a, b)
        {
          assert keys[..k][0] == keys[0];
        }
        if keys[0](a) > keys[0](b) { assert Alike(keys[..0], a, b); }
      }
    }
  }

  /** Largest first. */
  ghost predicate Descending(keys: seq<Key>, s: seq<Node>) {
    forall i, j :: 0 <= i < j < |s| ==> Alike(keys, s[i], s[j]) || Outranks(keys, s[i], s[j])
  }

  ghost predicate Before(s: seq<Node>, a: Node, b: Node) {
    exists p, q :: 0 <= p < q < |s| && s[p] == a && s[q] == b
  }

  /** Nodes that no dimension tells apart stay in the order of `input`. */
  ghost predicate Stable(keys: seq<Key>, input: seq<Node>, s: seq<Node>) {
    forall i, j :: 0 <= i < j < |s| && Alike(keys, s[i], s[j]) ==> Before(input, s[i], s[j])
  }

  ghost predicate SameNodes(input: seq<Node>, s: seq<Node>) {
    NoDup(input) && NoDup(s) && (forall x :: x in input ==> x in s) && (forall x :: x in s ==> x in input)
  }

  ghost predicate IsSortOf(keys: seq<Key>, input: seq<Node>, s: seq<Node>) {
    SameNodes(input, s) && Descending(keys, s) && Stable(keys, input, s)
  }

  /** The same, said with the comparison. */
  ghost predicate CmpDescending(keys: seq<Key>, s: seq<Node>) {
    forall i, j :: 0 <= i < j < |s| ==> Cmp(keys, s[i], s[j]) >= 0
  }

  ghost predicate CmpStable(keys: seq<Key>, input: seq<Node>, s: seq<Node>) {
    forall i, j :: 0 <= i < j < |s| && Cmp(keys, s[i], s[j]) == 0 ==> Before(input, s[i], s[j])
  }

  ghost predicate CmpSortOf(keys: seq<Key>, input: seq<Node>, s: seq<Node>) {
    SameNodes(input, s) && CmpDescending(keys, s) && CmpStable(keys, input, s)
  }

  lemma SortByCmp(keys: seq<Key>, input: seq<Node>, s: seq<Node>)
    ensures IsSortOf(keys, input, s) <==> CmpSortOf(keys, input, s)
  {
    forall i, j | 0 <= i < j < |s|
      ensures Cmp(keys, s[i], s[j]) >= 0 <==> Alike(keys, s[i], s[j]) || Outranks(keys, s[i], s[j])
      ensures Cmp(keys, s[i], s[j]) == 0 <==> Alike(keys, s[i], s[j])
    {
      CmpMeans(keys, s[i], s[j]);
    }
  }

  // --- What a sort leaves open: nothing ---------------------------------------------------

  lemma NotBothBefore(s: seq<Node>, a: Node, b: Node)
    requires NoDup(s)
    ensures !(Before(s, a, b) && Before(s, b, a))
  {
  }

  lemma NotAbove(s: seq<Node>, t: seq<Node>, k: nat)
    requires NoDup(s) && k < |s| && k <= |t| && s[..k] == t[..k]
    ensures s[k] !in t[..k]
  {
    forall i | 0 <= i < k
      ensures t[i] != s[k]
    {
      assert s[..k][i] == t[..k][i];
    }
  }

  lemma SameAt(keys: seq<Key>, input: seq<Node>, s: seq<Node>, t: seq<Node>, k: nat)
    requires CmpSortOf(keys, input, s) && CmpSortOf(keys, input, t)
    requires k < |s| && k < |t| && s[..k] == t[..k]
    ensures s[k] == t[k]
  {
    var a, b := s[k], t[k];
    assert a in t && b in s;
    var i :| 0 <= i < |t| && t[i] == a;
    var j :| 0 <= j < |s| && s[j] == b;
    NotAbove(s, t, k);
    NotAbove(t, s, k);
    if a != b {
      assert Cmp(keys, t[k], t[i]) >= 0 && Cmp(keys, s[k], s[j]) >= 0;
      CmpSwap(keys, a, b);
      assert Before(input, s[k], s[j]) && Before(input, t[k], t[i]);
      NotBothBefore(input, a, b);
    }
  }

  lemma {:induction false} SamePrefix(keys: seq<Key>, input: seq<Node>, s: seq<Node>, t: seq<Node>, k: nat)
    requires CmpSortOf(keys, input, s) && CmpSortOf(keys, input, t) && k <= |s| && k <= |t|
    ensures s[..k] == t[..k]
  {
    if k > 0 {
      SamePrefix(keys, input, s, t, k - 1);
      SameAt(keys, input, s, t, k - 1);
      assert s[..k] == s[..k - 1] + [s[k - 1]] && t[..k] == t[..k - 1] + [t[k - 1]];
    }
  }

  lemma SortsAsLong(keys: seq<Key>, input: seq<Node>, s: seq<Node>, t: seq<Node>)
    requires CmpSortOf(keys, input, s) && CmpSortOf(keys, input, t) && |s| <= |t|
    ensures |s| == |t|
  {
    assert s[..|s|] == s;
    if |s| < |t| {
      SamePrefix(keys, input, s, t, |s|);
      NotAbove(t, s, |s|);
      assert false;
    }
  }

  /** The comparisons, largest first, and the order before the sort settle the result. */
  lemma SortUnique(keys: seq<Key>, input: seq<Node>, s: seq<Node>, t: seq<Node>)
    requires IsSortOf(keys, input, s) && IsSortOf(keys, input, t)
    ensures s == t
  {
    SortByCmp(keys, input, s);
    SortByCmp(keys, input, t);
    if |s| <= |t| { SortsAsLong(keys, input, s, t); } else { SortsAsLong(keys, input, t, s); }
    SamePrefix(keys, input, s, t, |s|);
    assert s[..|s|] == s && t[..|t|] == t;
  }

  // --- One insertion ----------------------------------------------------------------------------

  lemma DescendingSplits(keys: seq<Key>, s: seq<Node>, node: Node, goes: (Node, Node) -> bool)
    requires CmpDescending(keys, s) && forall b :: b in s ==> goes(node, b) == (Cmp(keys, node, b) > 0)
    ensures Splits(s, node, goes)
  {
    forall i, j | 0 <= i < j < |s| && goes(node, s[i])
      ensures goes(node, s[j])
    {
      assert s[i] in s && s[j] in s;
      CmpTransitive(keys, node, s[i], s[j]);
    }
  }

  lemma InsertDescending(keys: seq<Key>, s: seq<Node>, node: Node, x: int)
    requires CmpDescending(keys, s) && 0 <= x <= |s|
    requires forall j :: 0 <= j < x ==> Cmp(keys, node, s[j]) <= 0
    requires forall j :: x <= j < |s| ==> Cmp(keys, node, s[j]) > 0
    ensures CmpDescending(keys, With(s, x, node))
  {
    var t := With(s, x, node);
    forall i, j | 0 <= i < j < |t|
      ensures Cmp(keys, t[i], t[j]) >= 0
    {
      if j == x { assert t[i] == s[i]; CmpSwap(keys, node, s[i]); }
      else if i == x { assert t[j] == s[j - 1]; }
      else { assert t[i] == s[if i < x then i else i - 1] && t[j] == s[if j < x then j else j - 1]; }
    }
  }

  lemma BeforeMore(s: seq<Node>, node: Node, a: Node, b: Node)
    ensures Before(s, a, b) ==> Before(s + [node], a, b)
    ensures a in s ==> Before(s + [node], a, node)
  {
    if Before(s, a, b) {
      var p, q :| 0 <= p < q < |s| && s[p] == a && s[q] == b;
      assert (s + [node])[p] == a && (s + [node])[q] == b;
    }
    if a in s {
      var p :| 0 <= p < |s| && s[p] == a;
      assert (s + [node])[p] == a && (s + [node])[|s|] == node;
    }
  }

  lemma InsertStable(keys: seq<Key>, input: seq<Node>, s: seq<Node>, node: Node, x: int)
    requires CmpStable(keys, input, s) && 0 <= x <= |s| && forall y :: y in s ==> y in input
    requires forall j :: x <= j < |s| ==> Cmp(keys, node, s[j]) > 0
    ensures CmpStable(keys, input + [node], With(s, x, node))
  {
    var t := With(s, x, node);
    assert forall j :: x < j < |t| ==> t[j] == s[j - 1];
    forall i, j | 0 <= i < j < |t| && Cmp(keys, t[i], t[j]) == 0
      ensures Before(input + [node], t[i], t[j])
    {
      if i != x {
        var i0 := if i < x then i else i - 1;
        assert t[i] == s[i0] && s[i0] in s;
        if j != x { assert t[j] == s[if j < x then j else j - 1]; }
        BeforeMore(input, node, t[i], t[j]);
      }
    }
  }

  lemma InsertSorts(keys: seq<Key>, input: seq<Node>, s: seq<Node>, node: Node, x: int)
    requires IsSortOf(keys, input, s) && node !in s && 0 <= x <= |s|
    requires forall j :: 0 <= j < x ==> Cmp(keys, node, s[j]) <= 0
    requires forall j :: x <= j < |s| ==> Cmp(keys, node, s[j]) > 0
    ensures IsSortOf(keys, input + [node], With(s, x, node))
  {
    SortByCmp(keys, input, s);
    InsertDescending(keys, s, node, x);
    InsertStable(keys, input, s, node, x);
    WithMembers(s, x, node);
    assert node !in input;
    WithNoDup(s, x, node);
    SortByCmp(keys, input + [node], With(s, x, node));
  }

  lemma WithNoDup(s: seq<Node>, x: int, node: Node)
    requires NoDup(s) && node !in s && 0 <= x <= |s|
    ensures NoDup(With(s, x, node))
  {
    var t := With(s, x, node);
    forall i, j | 0 <= i < j < |t|
      ensures t[i] != t[j]
    {
      if i != x { assert t[i] == s[if i < x then i else i - 1]; }
      if j != x { assert t[j] == s[if j < x then j else j - 1]; }
    }
  }

  /** `sort_slab_insert` */
  method SortInsert(root: RbRoot, node: Node, keys: seq<Key>, ghost input: seq<Node>)
    requires root.Valid() && IsRb(root.tree) && node !in root.order && IsSortOf(keys, input, root.order)
    modifies root, node, root.order
    ensures root.Valid() && IsRb(root.tree) && IsSortOf(keys, input + [node], root.order)
    ensures forall x :: x in root.order <==> x == node || x in old(root.order)
  {
    ghost var s := root.order;
    var goes := (a: Node, b: Node) => Cmp(keys, a, b) > 0;
    SortByCmp(keys, input, s);
    DescendingSplits(keys, s, node, goes);
    ghost var x := Insert(root, node, goes);
    assert Between(s, node, goes, x, x);
    InsertSorts(keys, input, s, node, x);
    WithMembers(s, x, node);
  }

  lemma Shorter(s: seq<Node>)
    requires NoDup(s) && |s| > 0
    ensures Without(s, 0) == s[1..] && s[0] !in s[1..] && NoDup(s[1..])
  {
  }

  twostate lemma StillValid(root: RbRoot)
    requires old(root.Valid()) && unchanged(root) && forall x :: x in root.order ==> unchanged(x)
    ensures root.Valid()
  {
    forall j | 0 <= j < |root.order|
      ensures unchanged(root.order[j])
    {
      assert root.order[j] in root.order;
    }
  }

  method EraseFirst(root: RbRoot, node: Node, other: RbRoot)
    requires root.Valid() && IsRb(root.tree) && node == Nd(root.order, 0)
    requires other != root && other.Valid() && forall x :: x in root.order ==> x !in other.order
    modifies root, root.order
    ensures root.Valid() && IsRb(root.tree) && root.order == old(root.order[1..]) && node !in root.order
    ensures other.Valid()
  {
    Shorter(root.order);
    Erase(root, node, 0);
    StillValid(other);
  }

  method InsertFirst(root: RbRoot, node: Node, keys: seq<Key>, ghost done: seq<Node>, other: RbRoot)
    requires root.Valid() && IsRb(root.tree) && node !in root.order && IsSortOf(keys, done, root.order)
    requires other != root && other.Valid() && node !in other.order && forall x :: x in other.order ==> x !in root.order
    modifies root, node, root.order
    ensures root.Valid() && IsRb(root.tree) && IsSortOf(keys, done + [node], root.order)
    ensures other.Valid()
  {
    SortInsert(root, node, keys, done);
    StillValid(other);
  }

  /** One round: the first node of `root` moves to `sorted`. */
  method MoveFirst(root: RbRoot, sorted: RbRoot, node: Node, keys: seq<Key>, ghost done: seq<Node>)
    requires root.Valid() && IsRb(root.tree) && sorted.Valid() && IsRb(sorted.tree) && root != sorted
    requires node == Nd(root.order, 0)
    requires IsSortOf(keys, done, sorted.order) && (forall x :: x in root.order ==> x !in sorted.order)
    modifies root, root.order, sorted, sorted.order
    ensures root.order == old(root.order[1..]) && root.Valid() && IsRb(root.tree)
    ensures sorted.Valid() && IsRb(sorted.tree) && IsSortOf(keys, done + [node], sorted.order)
  {
    EraseFirst(root, node, sorted);
    InsertFirst(sorted, node, keys, done, root);
  }

  /** What is left in `root` has not been moved yet. */
  lemma Apart(done: seq<Node>, left: seq<Node>)
    requires NoDup(done + left)
    ensures forall x :: x in left ==> x !in done
  {
    forall i, j | 0 <= i < |done| && 0 <= j < |left|
      ensures done[i] != left[j]
    {
      assert (done + left)[i] == done[i] && (done + left)[|done| + j] == left[j];
    }
  }

  /** The nodes `all` are split between the two trees, those of `sorted` being `done`. */
  ghost predicate Sorting(root: RbRoot, sorted: RbRoot, keys: seq<Key>, all: seq<Node>, done: seq<Node>)
    reads root, sorted, root.order, sorted.order
  {
    && root.Valid() && IsRb(root.tree) && sorted.Valid() && IsRb(sorted.tree)
    && done + root.order == all && NoDup(all) && IsSortOf(keys, done, sorted.order)
  }

  lemma SortingParts(root: RbRoot, sorted: RbRoot, keys: seq<Key>, all: seq<Node>, done: seq<Node>)
    requires Sorting(root, sorted, keys, all, done)
    ensures forall x :: x in root.order ==> x !in sorted.order
    ensures forall i :: 0 <= i < |root.order| ==> root.order[i] in all
    ensures forall i :: 0 <= i < |sorted.order| ==> sorted.order[i] in all
    ensures |root.order| > 0 ==> (done + [root.order[0]]) + root.order[1..] == all
  {
    Apart(done, root.order);
    if |root.order| > 0 { assert root.order == [root.order[0]] + root.order[1..]; }
  }

  method SortStep(root: RbRoot, sorted: RbRoot, node: Node, keys: seq<Key>, ghost all: seq<Node>, ghost done: seq<Node>)
    requires Sorting(root, sorted, keys, all, done) && root != sorted && node == Nd(root.order, 0)
    modifies root, sorted, all
    ensures Sorting(root, sorted, keys, all, done + [node]) && |root.order| < old(|root.order|)
  {
    SortingParts(root, sorted, keys, all, done);
    MoveFirst(root, sorted, node, keys, done);
  }

  /** `__sort_slab_result`: empties `root` into `sorted`. */
  method SortResult(root: RbRoot, sorted: RbRoot, keys: seq<Key>)
    requires root.Valid() && IsRb(root.tree) && sorted.Valid() && IsRb(sorted.tree) && root != sorted
    requires sorted.order == []
    modifies root, root.order, sorted
    ensures root.Valid() && root.node == null && root.order == []
    ensures sorted.Valid() && IsRb(sorted.tree) && IsSortOf(keys, old(root.order), sorted.order)
  {
    ghost var all := root.order;
    ghost var done: seq<Node> := [];
    while true
      invariant Sorting(root, sorted, keys, all, done)
      decreases |root.order|
    {
      var node := First(root);
      if node == null { break; }
      SortStep(root, sorted, node, keys, all, done);
      done := done + [node];
    }
    assert root.order == [] && done == all;
  }
}
