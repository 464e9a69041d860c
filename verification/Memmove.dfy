/** The 32-bit `memmove`: six ways to copy, each the same as copying all bytes at once. */
module Memmove {
  import opened Machine

  // --- Memory as a value -----------------------------------------------------------------------

  ghost predicate Room(m: seq<Byte>, a: nat, n: nat) { a + n <= |m| && |m| <= TWO_32 }

  /** Memory with the bytes `v` at address `a`. */
  ghost function Put(m: seq<Byte>, a: nat, v: seq<Byte>): seq<Byte>
    requires a + |v| <= |m|
  {
    m[..a] + v + m[a + |v|..]
  }

  /** All `n` bytes at `src` copied to `dest` at once. */
  ghost function Copied(m: seq<Byte>, src: nat, dest: nat, n: nat): seq<Byte>
    requires Room(m, src, n) && Room(m, dest, n)
  {
    Put(m, dest, m[src..src + n])
  }

  /** The bytes from `lo` to `hi` have been copied, and nothing else has changed. */
  ghost predicate Moved(m0: seq<Byte>, m: seq<Byte>, src: nat, dest: nat, lo: nat, hi: nat) {
    && |m| == |m0| && lo <= hi && Room(m0, src, hi) && Room(m0, dest, hi)
    && forall j {:trigger m[j]} :: 0 <= j < |m| ==>
         m[j] == if dest + lo <= j < dest + hi then m0[src + j - dest] else m0[j]
  }

  lemma NothingMoved(m: seq<Byte>, src: nat, dest: nat, k: nat)
    requires Room(m, src, k) && Room(m, dest, k)
    ensures Moved(m, m, src, dest, k, k)
  {
  }

  /** A copy is what remains when every byte has been moved. */
  lemma AllMoved(m0: seq<Byte>, m: seq<Byte>, src: nat, dest: nat, n: nat)
    requires Moved(m0, m, src, dest, 0, n)
    ensures m == Copied(m0, src, dest, n)
  {
    var c := Copied(m0, src, dest, n);
    forall j | 0 <= j < |m|
      ensures m[j] == c[j]
    {
    }
  }

  /** Bytes that no store has reached are still those of the start. */
  lemma Intact(m0: seq<Byte>, m: seq<Byte>, src: nat, dest: nat, lo: nat, hi: nat, k: nat, w: nat)
    requires Moved(m0, m, src, dest, lo, hi) && src + k + w <= |m0|
    requires src + k + w <= dest + lo || dest + hi <= src + k
    ensures m[src + k..src + k + w] == m0[src + k..src + k + w]
  {
  }

  /** A store over bytes that have already been moved, or right next to them. */
  lemma StoreOver(m0: seq<Byte>, m: seq<Byte>, src: nat, dest: nat, lo: nat, hi: nat, k: nat, v: seq<Byte>, lo': nat,
                  hi': nat)
    requires Moved(m0, m, src, dest, lo, hi) && Room(m0, src, k + |v|) && Room(m0, dest, k + |v|)
    requires v == m0[src + k..src + k + |v|] && lo <= k + |v| && k <= hi
    requires lo' == (if k < lo then k else lo) && hi' == (if k + |v| > hi then k + |v| else hi)
    ensures Moved(m0, Put(m, dest + k, v), src, dest, lo', hi')
  {
    var m' := Put(m, dest + k, v);
    forall j {:trigger m'[j]} | 0 <= j < |m'|
      ensures m'[j] == if dest + lo' <= j < dest + hi' then m0[src + j - dest] else m0[j]
    {
      if j < dest + k || j >= dest + k + |v| { assert m'[j] == m[j]; }
    }
  }

  // --- Loads and stores ------------------------------------------------------------------------------

  method Load(mem: array<Byte>, a: nat, w: nat) returns (v: seq<Byte>)
    requires a + w <= mem.Length
    ensures v == mem[..][a..a + w] && |v| == w
  {
    v := mem[a..a + w];
  }

  method Store(mem: array<Byte>, a: nat, v: seq<Byte>)
    requires a + |v| <= mem.Length
    modifies mem
    ensures mem[..] == Put(old(mem[..]), a, v)
  {
    forall i | 0 <= i < |v| { mem[a + i] := v[i]; }
    ghost var m := old(mem[..]);
    forall j | 0 <= j < mem.Length
      ensures mem[j] == Put(m, a, v)[j]
    {
    }
  }

  /** Stores the bytes that belong at offset `k`; the bytes from `lo` to `hi` have been moved
      before, those from `lo'` to `hi'` after. */
  method StoreAt(mem: array<Byte>, a: nat, v: seq<Byte>, ghost m0: seq<Byte>, ghost src: nat, ghost dest: nat,
                 ghost k: nat, ghost lo: nat, ghost hi: nat, ghost lo': nat, ghost hi': nat)
    requires Moved(m0, mem[..], src, dest, lo, hi) && a == dest + k && Room(m0, src, k + |v|) && Room(m0, dest, k + |v|)
    requires v == m0[src + k..src + k + |v|] && lo <= k + |v| && k <= hi
    requires lo' == (if k < lo then k else lo) && hi' == (if k + |v| > hi then k + |v| else hi)
    modifies mem
    ensures Moved(m0, mem[..], src, dest, lo', hi')
  {
    StoreOver(m0, mem[..], src, dest, lo, hi, k, v, lo', hi');
    Store(mem, a, v);
  }

  /** The first two words of a piece, and the last two. */
  method StoreEnds(mem: array<Byte>, dest: nat, n: nat, r3: seq<Byte>, r4: seq<Byte>, r5: seq<Byte>, r1: seq<Byte>,
                   ghost m: seq<Byte>, ghost src: nat)
    requires 8 <= n < 16 && Moved(m, mem[..], src, dest, 0, 0) && Room(m, src, n) && Room(m, dest, n)
    requires |r3| == |r4| == |r5| == |r1| == 4
    requires r3 == m[src..src + 4] && r4 == m[src + 4..src + 8]
    requires r5 == m[src + n - 8..src + n - 4] && r1 == m[src + n - 4..src + n]
    modifies mem
    ensures Moved(m, mem[..], src, dest, 0, n)
  {
    ghost var hi := if n > 12 then n - 4 else 8;
    StoreAt(mem, dest, r3, m, src, dest, 0, 0, 0, 0, 4);
    StoreAt(mem, dest + 4, r4, m, src, dest, 4, 0, 4, 0, 8);
    StoreAt(mem, dest + n - 8, r5, m, src, dest, n - 8, 0, 8, 0, hi);
    StoreAt(mem, dest + n - 4, r1, m, src, dest, n - 4, 0, hi, 0, n);
  }

  /** The first word of a piece and the last. */
  method StoreTwo(mem: array<Byte>, dest: nat, n: nat, first: seq<Byte>, last: seq<Byte>, ghost m: seq<Byte>,
                  ghost src: nat)
    requires Moved(m, mem[..], src, dest, 0, 0) && Room(m, src, n) && Room(m, dest, n)
    requires |first| == |last| && |first| <= n < 2 * |first|
    requires first == m[src..src + |first|] && last == m[src + n - |last|..src + n]
    modifies mem
    ensures Moved(m, mem[..], src, dest, 0, n)
  {
    StoreAt(mem, dest, first, m, src, dest, 0, 0, 0, 0, |first|);
    StoreAt(mem, dest + n - |last|, last, m, src, dest, n - |last|, 0, |first|, 0, n);
  }

  // --- Fewer than sixteen bytes -------------------------------------------------------------------------

  /** From 8 to 15 bytes: four words, all loaded before the first is stored. */
  method Move8(mem: array<Byte>, src: nat, dest: nat, n: nat)
    requires 8 <= n < 16 && Room(mem[..], src, n) && Room(mem[..], dest, n)
    modifies mem
    ensures Moved(old(mem[..]), mem[..], src, dest, 0, n)
  {
    ghost var m := mem[..];
    NothingMoved(m, src, dest, 0);
    var r3 := Load(mem, src, 4);
    var r4 := Load(mem, src + 4, 4);
    var r5 := Load(mem, src + n - 8, 4);
    var r1 := Load(mem, src + n - 4, 4);
    StoreEnds(mem, dest, n, r3, r4, r5, r1, m, src);
  }

  /** From 4 to 7 bytes, or with words of two bytes from 2 to 3. */
  method MoveTwo(mem: array<Byte>, src: nat, dest: nat, n: nat, w: nat)
    requires 0 < w <= n < 2 * w && Room(mem[..], src, n) && Room(mem[..], dest, n)
    modifies mem
    ensures Moved(old(mem[..]), mem[..], src, dest, 0, n)
  {
    ghost var m := mem[..];
    NothingMoved(m, src, dest, 0);
    var first := Load(mem, src, w);
    var last := Load(mem, src + n - w, w);
    StoreTwo(mem, dest, n, first, last, m, src);
  }

  method MoveOne(mem: array<Byte>, src: nat, dest: nat)
    requires Room(mem[..], src, 1) && Room(mem[..], dest, 1)
    modifies mem
    ensures Moved(old(mem[..]), mem[..], src, dest, 0, 1)
  {
    ghost var m := mem[..];
    NothingMoved(m, src, dest, 0);
    var cl := Load(mem, src, 1);
    StoreAt(mem, dest, cl, m, src, dest, 0, 0, 0, 0, 1);
  }

  /** The cases from label 1 on. */
  method MoveTail(mem: array<Byte>, src: nat, dest: nat, n: nat)
    requires n < 16 && Room(mem[..], src, n) && Room(mem[..], dest, n)
    modifies mem
    ensures Moved(old(mem[..]), mem[..], src, dest, 0, n)
  {
    NothingMoved(mem[..], src, dest, 0);
    if n >= 8 {
      Move8(mem, src, dest, n);
    } else if n >= 4 {
      MoveTwo(mem, src, dest, n, 4);
    } else if n >= 2 {
      MoveTwo(mem, src, dest, n, 2);
    } else if n >= 1 {
      MoveOne(mem, src, dest);
    }
  }

  // --- Forward, when the source lies above ------------------------------------------------------------

  /** Two words loaded, then both stored. */
  method PairUp(mem: array<Byte>, src: nat, dest: nat, ghost m0: seq<Byte>, ghost src0: nat, ghost dest0: nat,
                ghost k: nat)
    requires dest0 <= src0 && src == src0 + k && dest == dest0 + k && Room(m0, src0, k + 8) && Room(m0, dest0, k + 8)
    requires Moved(m0, mem[..], src0, dest0, 0, k)
    modifies mem
    ensures Moved(m0, mem[..], src0, dest0, 0, k + 8)
  {
    Intact(m0, mem[..], src0, dest0, 0, k, k, 4);
    Intact(m0, mem[..], src0, dest0, 0, k, k + 4, 4);
    var r3 := Load(mem, src, 4);
    var r4 := Load(mem, src + 4, 4);
    StoreAt(mem, dest, r3, m0, src0, dest0, k, 0, k, 0, k + 4);
    StoreAt(mem, dest + 4, r4, m0, src0, dest0, k + 4, 0, k + 4, 0, k + 8);
  }

  /** Sixteen bytes at a time, from label 3 on. */
  method Forward16(mem: array<Byte>, src0: nat, dest0: nat, n0: nat) returns (src: nat, dest: nat, n: nat)
    requires 16 <= n0 && Room(mem[..], src0, n0) && Room(mem[..], dest0, n0) && dest0 <= src0
    modifies mem
    ensures n < 16 && n <= n0 && src == src0 + n0 - n && dest == dest0 + n0 - n
    ensures Moved(old(mem[..]), mem[..], src0, dest0, 0, n0 - n)
  {
    ghost var m0, k := mem[..], 0;
    NothingMoved(m0, src0, dest0, 0);
    src, dest, n := src0, dest0, n0 - 16;
    var borrow := false;
    while !borrow
      invariant 0 <= k <= n0 && src == src0 + k && dest == dest0 + k && Moved(m0, mem[..], src0, dest0, 0, k)
      invariant !borrow ==> k + 16 <= n0 && n == n0 - k - 16
      invariant borrow ==> n0 < k + 16 && n == n0 - k - 16 + TWO_32
      decreases n0 - k, !borrow
    {
      borrow := n < 16;
      n := (n - 16) % TWO_32;
      PairUp(mem, src, dest, m0, src0, dest0, k);
      PairUp(mem, src + 8, dest + 8, m0, src0, dest0, k + 8);
      src, dest, k := src + 16, dest + 16, k + 16;
    }
    n := (n + 16) % TWO_32;
  }

  /** `rep movsl` with the direction flag clear. */
  method RepMovsUp(mem: array<Byte>, src: nat, dest: nat, count: nat)
    requires Room(mem[..], src, 4 * count) && Room(mem[..], dest, 4 * count) && dest <= src
    modifies mem
    ensures Moved(old(mem[..]), mem[..], src, dest, 0, 4 * count)
  {
    ghost var m0 := mem[..];
    NothingMoved(m0, src, dest, 0);
    var i := 0;
    while i < count
      invariant 0 <= i <= count && Moved(m0, mem[..], src, dest, 0, 4 * i)
    {
      Intact(m0, mem[..], src, dest, 0, 4 * i, 4 * i, 4);
      var v := Load(mem, src + 4 * i, 4);
      StoreAt(mem, dest + 4 * i, v, m0, src, dest, 4 * i, 0, 4 * i, 0, 4 * i + 4);
      i := i + 1;
    }
  }

  /** Label 4: the last word is saved first and stored last. */
  method ForwardMovs(mem: array<Byte>, src: nat, dest: nat, n: nat)
    requires 4 <= n && Room(mem[..], src, n) && Room(mem[..], dest, n) && dest <= src
    modifies mem
    ensures Moved(old(mem[..]), mem[..], src, dest, 0, n)
  {
    ghost var m0 := mem[..];
    var r3 := Load(mem, src + n - 4, 4);
    var r4 := dest + n - 4;
    var count := n / 4;
    RepMovsUp(mem, src, dest, count);
    StoreAt(mem, r4, r3, m0, src, dest, n - 4, 0, 4 * count, 0, n);
  }

  // --- Backward, when the source lies below ------------------------------------------------------------

  method PairDown(mem: array<Byte>, src: nat, dest: nat, ghost m0: seq<Byte>, ghost src0: nat, ghost dest0: nat,
                  ghost k: nat, ghost n0: nat)
    requires src0 < dest0 && 8 <= k <= n0 && src == src0 + k && dest == dest0 + k && Room(m0, src0, n0)
    requires Room(m0, dest0, n0)
    requires Moved(m0, mem[..], src0, dest0, k, n0)
    modifies mem
    ensures Moved(m0, mem[..], src0, dest0, k - 8, n0)
  {
    Intact(m0, mem[..], src0, dest0, k, n0, k - 4, 4);
    Intact(m0, mem[..], src0, dest0, k, n0, k - 8, 4);
    var r3 := Load(mem, src - 4, 4);
    var r4 := Load(mem, src - 8, 4);
    StoreAt(mem, dest - 4, r3, m0, src0, dest0, k - 4, k, n0, k - 4, n0);
    StoreAt(mem, dest - 8, r4, m0, src0, dest0, k - 8, k - 4, n0, k - 8, n0);
  }

  /** Sixteen bytes at a time, from label 5 on, ending at the head. */
  method Backward16(mem: array<Byte>, src0: nat, dest0: nat, n0: nat) returns (src: nat, dest: nat, n: nat)
    requires 16 <= n0 && Room(mem[..], src0, n0) && Room(mem[..], dest0, n0) && src0 < dest0
    modifies mem
    ensures n < 16 && n <= n0 && src == src0 && dest == dest0
    ensures Moved(old(mem[..]), mem[..], src0, dest0, n, n0)
  {
    ghost var m0, k := mem[..], n0;
    NothingMoved(m0, src0, dest0, n0);
    src, dest, n := src0 + n0, dest0 + n0, n0 - 16;
    var borrow := false;
    while !borrow
      invariant 0 <= k <= n0 && src == src0 + k && dest == dest0 + k && Moved(m0, mem[..], src0, dest0, k, n0)
      invariant !borrow ==> 16 <= k && n == k - 16
      invariant borrow ==> k < 16 && n == k - 16 + TWO_32
      decreases k, !borrow
    {
      borrow := n < 16;
      n := (n - 16) % TWO_32;
      PairDown(mem, src, dest, m0, src0, dest0, k, n0);
      PairDown(mem, src - 8, dest - 8, m0, src0, dest0, k - 8, n0);
      src, dest, k := src - 16, dest - 16, k - 16;
    }
    n := (n + 16) % TWO_32;
    src, dest := src - n, dest - n;
  }

  /** `rep movsl` with the direction flag set, from the words at `src` and `dest` down. */
  method RepMovsDown(mem: array<Byte>, src: nat, dest: nat, count: nat, ghost src0: nat, ghost dest0: nat, ghost n: nat)
    requires Room(mem[..], src0, n) && Room(mem[..], dest0, n) && src0 < dest0 && 4 <= n && 4 * count <= n
    requires src == src0 + n - 4 && dest == dest0 + n - 4
    modifies mem
    ensures Moved(old(mem[..]), mem[..], src0, dest0, n - 4 * count, n)
  {
    ghost var m0 := mem[..];
    NothingMoved(m0, src0, dest0, n);
    var i := 0;
    while i < count
      invariant 0 <= i <= count && Moved(m0, mem[..], src0, dest0, n - 4 * i, n)
    {
      ghost var k := n - 4 * i;
      Intact(m0, mem[..], src0, dest0, k, n, k - 4, 4);
      var v := Load(mem, src - 4 * i, 4);
      StoreAt(mem, dest - 4 * i, v, m0, src0, dest0, k - 4, k, n, k - 4, n);
      i := i + 1;
    }
  }

  /** Label 6: the first word is saved first and stored last. */
  method BackwardMovs(mem: array<Byte>, src: nat, dest: nat, n: nat)
    requires 4 <= n && Room(mem[..], src, n) && Room(mem[..], dest, n) && src < dest
    modifies mem
    ensures Moved(old(mem[..]), mem[..], src, dest, 0, n)
  {
    ghost var m0 := mem[..];
    var r3 := Load(mem, src, 4);
    var count := n / 4;
    RepMovsDown(mem, src + n - 4, dest + n - 4, count, src, dest, n);
    StoreAt(mem, dest, r3, m0, src, dest, 0, n - 4 * count, n, 0, n);
  }

  // --- All together --------------------------------------------------------------------------------------

  lemma JoinUp(m0: seq<Byte>, m1: seq<Byte>, m2: seq<Byte>, src: nat, dest: nat, k: nat, n: nat)
    requires dest <= src && k <= n && Moved(m0, m1, src, dest, 0, k) && Moved(m1, m2, src + k, dest + k, 0, n - k)
    ensures Moved(m0, m2, src, dest, 0, n)
  {
    forall j {:trigger m2[j]} | 0 <= j < |m2|
      ensures m2[j] == if dest <= j < dest + n then m0[src + j - dest] else m0[j]
    {
      if dest + k <= j < dest + n { assert m2[j] == m1[src + j - dest]; } else { assert m2[j] == m1[j]; }
    }
  }

  lemma JoinDown(m0: seq<Byte>, m1: seq<Byte>, m2: seq<Byte>, src: nat, dest: nat, k: nat, n: nat)
    requires src < dest && k <= n && Moved(m0, m1, src, dest, k, n) && Moved(m1, m2, src, dest, 0, k)
    ensures Moved(m0, m2, src, dest, 0, n)
  {
    forall j {:trigger m2[j]} | 0 <= j < |m2|
      ensures m2[j] == if dest <= j < dest + n then m0[src + j - dest] else m0[j]
    {
      if dest <= j < dest + k { assert m2[j] == m1[src + j - dest]; } else { assert m2[j] == m1[j]; }
    }
  }

  method MoveForward(mem: array<Byte>, src: nat, dest: nat, n: nat)
    requires 16 <= n && Room(mem[..], src, n) && Room(mem[..], dest, n) && dest <= src
    modifies mem
    ensures Moved(old(mem[..]), mem[..], src, dest, 0, n)
  {
    if n >= 680 && src % 256 == dest % 256 {
      ForwardMovs(mem, src, dest, n);
    } else {
      ghost var m0 := mem[..];
      var src1, dest1, n1 := Forward16(mem, src, dest, n);
      ghost var m1 := mem[..];
      MoveTail(mem, src1, dest1, n1);
      JoinUp(m0, m1, mem[..], src, dest, n - n1, n);
    }
  }

  method MoveBackward(mem: array<Byte>, src: nat, dest: nat, n: nat)
    requires 16 <= n && Room(mem[..], src, n) && Room(mem[..], dest, n) && src < dest
    modifies mem
    ensures Moved(old(mem[..]), mem[..], src, dest, 0, n)
  {
    if n >= 680 && src % 256 == dest % 256 {
      BackwardMovs(mem, src, dest, n);
    } else {
      ghost var m0 := mem[..];
      var src1, dest1, n1 := Backward16(mem, src, dest, n);
      ghost var m1 := mem[..];
      MoveTail(mem, src1, dest1, n1);
      JoinDown(m0, m1, mem[..], src, dest, n1, n);
    }
  }

  /** `memmove`: whatever the overlap and whichever the way, the bytes arrive as if copied all
      at once, and no other byte changes. */
  method Memmove(mem: array<Byte>, dest: nat, src: nat, n: nat) returns (ret: nat)
    requires Room(mem[..], src, n) && Room(mem[..], dest, n)
    modifies mem
    ensures ret == dest && mem[..] == Copied(old(mem[..]), src, dest, n)
  {
    ghost var m0 := mem[..];
    if n < 16 {
      MoveTail(mem, src, dest, n);
    } else if src < dest {
      MoveBackward(mem, src, dest, n);
    } else {
      MoveForward(mem, src, dest, n);
    }
    AllMoved(m0, mem[..], src, dest, n);
    ret := dest;
  }
}
