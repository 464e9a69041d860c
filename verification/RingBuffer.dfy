/** `perf record`: reading the events that the kernel puts into a ring buffer. */
module RingBuffer {
  import opened Machine

  // --- Places in the ring -----------------------------------------------------------------------

  /** The place of byte number `x` in a ring of `n` bytes, counted round by round. */
  function Slot(x: nat, n: nat): (p: nat)
    requires n > 0
    ensures p < n
  {
    if x < n then x else Slot(x - n, n)
  }

  lemma {:induction false} SlotRounds(x: nat, k: nat, n: nat)
    requires n > 0
    ensures Slot(x + k * n, n) == Slot(x, n)
    decreases k
  {
    if k > 0 {
      SlotRounds(x, k - 1, n);
      assert x + k * n - n == x + (k - 1) * n;
    }
  }

  /** It is the remainder. */
  lemma SlotIsMod(x: nat, n: nat)
    requires n > 0
    ensures Slot(x, n) == x % n
  {
    SlotRounds(x % n, x / n, n);
    assert x == x % n + x / n * n;
  }

  lemma {:induction false} SlotSum(s: nat, i: nat, n: nat)
    requires n > 0
    ensures Slot(s + i, n) == Slot(Slot(s, n) + i, n)
    decreases s
  {
    if s >= n { SlotSum(s - n, i, n); }
  }

  /** Where a range of at most one ring length ends. */
  lemma EndsAt(s: nat, k: nat, n: nat)
    requires n > 0 && k <= n
    ensures Slot(s + k, n) == if Slot(s, n) + k < n then Slot(s, n) + k else Slot(s, n) + k - n
  {
    SlotSum(s, k, n);
  }

  ghost predicate IsPower(n: nat) { n == 1 || (n > 0 && n % 2 == 0 && IsPower(n / 2)) }

  ghost predicate IsRing(n: nat) { IsPower(n) && n <= 0x8000_0000 }

  ghost function Power(j: nat): nat { if j == 0 then 1 else 2 * Power(j - 1) }

  lemma {:induction false} PowerDivides(n: nat, j: nat) returns (m: nat)
    requires IsPower(n) && n <= Power(j)
    ensures Power(j) == m * n
    decreases j
  {
    if n == 1 {
      m := Power(j);
    } else {
      m := PowerDivides(n / 2, j - 1);
      assert Power(j) == 2 * (m * (n / 2)) == m * (2 * (n / 2)) == m * n;
    }
  }

  lemma PowerOf64()
    ensures Power(64) == TWO_64
  {
    assert Power(16) == 0x1_0000 by {
      assert Power(4) == 16 && Power(8) == 256 && Power(12) == 4096;
    }
    PowerSum(16, 16);
    PowerSum(32, 32);
  }

  lemma {:induction false} PowerSum(i: nat, j: nat)
    ensures Power(i + j) == Power(i) * Power(j)
    decreases j
  {
    if j > 0 {
      PowerSum(i, j - 1);
      assert Power(i + j) == 2 * (Power(i) * Power(j - 1)) == Power(i) * (2 * Power(j - 1));
    }
  }

  /** Addition and subtraction of 64-bit counters. */
  function Plus64(x: nat, y: nat): (z: nat)
    requires x < TWO_64 && y < TWO_64
    ensures z < TWO_64
  {
    if x + y < TWO_64 then x + y else x + y - TWO_64
  }

  function Minus64(x: nat, y: nat): (z: nat)
    requires x < TWO_64 && y < TWO_64
    ensures z < TWO_64
  {
    if x >= y then x - y else x + TWO_64 - y
  }

  /** Counters that wrap at 64 bits still give the right place in the ring. */
  lemma Wrapped(x: nat, n: nat)
    requires IsRing(n) && x >= TWO_64
    ensures Slot(x - TWO_64, n) == Slot(x, n)
  {
    PowerOf64();
    var m := PowerDivides(n, 64);
    SlotRounds(x - TWO_64, m, n);
  }

  lemma PlusSlot(x: nat, y: nat, n: nat)
    requires IsRing(n) && x < TWO_64 && y < TWO_64
    ensures Slot(Plus64(x, y), n) == Slot(x + y, n)
  {
    if x + y >= TWO_64 { Wrapped(x + y, n); }
  }

  lemma TwiceMod(x: nat, h: nat)
    requires h > 0
    ensures x % (2 * h) == x % 2 + 2 * (x / 2 % h)
  {
    var t, m := x / 2 % h, x / 2 / h;
    assert x / 2 == h * m + t;
    assert x == m * (2 * h) + (2 * t + x % 2);
    Remainder(x, 2 * h, m, 2 * t + x % 2);
  }

  lemma Remainder(x: nat, n: nat, m: nat, r: nat)
    requires x == m * n + r && r < n
    ensures x % n == r
  {
    SlotRounds(r, m, n);
    SlotIsMod(x, n);
  }

  /** In a ring of a power of two, masking a position gives its place. */
  lemma {:induction false} MaskIsMod(x: nat, n: nat)
    requires IsPower(n)
    ensures BitAnd(x, n - 1) == x % n
    decreases n
  {
    if n > 1 {
      MaskIsMod(x / 2, n / 2);
      TwiceMod(x, n / 2);
      assert (n - 1) / 2 == n / 2 - 1 && (n - 1) % 2 == 1 && n == 2 * (n / 2);
    }
  }

  /** `x & mask` */
  function Place(x: nat, n: nat): (p: nat)
    requires IsRing(n)
    ensures p == Slot(x, n)
  {
    MaskIsMod(x, n);
    SlotIsMod(x, n);
    BitAnd(x, n - 1)
  }

  // --- What a read puts into the file --------------------------------------------------------------

  /** The `k` bytes of the ring from place `s` on, going round at the end. */
  ghost function Circular(data: seq<Byte>, s: nat, k: nat): (b: seq<Byte>)
    requires |data| > 0
    ensures |b| == k
  {
    seq(k, i requires 0 <= i < k => data[Slot(s + i, |data|)])
  }

  lemma OneChunk(data: seq<Byte>, s: nat, k: nat)
    requires |data| > 0 && Slot(s, |data|) + k <= |data|
    ensures Circular(data, s, k) == data[Slot(s, |data|)..Slot(s, |data|) + k]
  {
    var c, d := Circular(data, s, k), data[Slot(s, |data|)..Slot(s, |data|) + k];
    forall i | 0 <= i < k
      ensures c[i] == d[i]
    {
      EndsAt(s, i, |data|);
    }
  }

  lemma TwoChunks(data: seq<Byte>, s: nat, j: nat, k: nat)
    requires |data| > 0 && j <= k
    ensures Circular(data, s, k) == Circular(data, s, j) + Circular(data, s + j, k - j)
  {
    var a, b := Circular(data, s, j), Circular(data, s + j, k - j);
    forall i | 0 <= i < k
      ensures Circular(data, s, k)[i] == (a + b)[i]
    {
      if i >= j { assert b[i - j] == data[Slot(s + j + (i - j), |data|)]; }
    }
  }

  /** The place matters only up to whole rounds. */
  lemma SamePlace(data: seq<Byte>, s: nat, t: nat, k: nat)
    requires |data| > 0 && Slot(s, |data|) == Slot(t, |data|)
    ensures Circular(data, s, k) == Circular(data, t, k)
  {
    var c, d := Circular(data, s, k), Circular(data, t, k);
    forall i | 0 <= i < k
      ensures c[i] == d[i]
    {
      SlotSum(s, i, |data|);
      SlotSum(t, i, |data|);
    }
  }

  // --- Finding the range of a backward ring --------------------------------------------------------

  /** The event boundaries: how far the events after `head` reach, `k` of them, when the
      header at place `p` of a ring of `n` bytes has the size `sizeAt(p)`. */
  ghost function Boundary(sizeAt: nat -> nat, n: nat, head: nat, k: nat): nat
    requires n > 0
  {
    if k == 0 then 0
    else Boundary(sizeAt, n, head, k - 1) + EventSize(sizeAt, n, head, Boundary(sizeAt, n, head, k - 1))
  }

  ghost function EventSize(sizeAt: nat -> nat, n: nat, head: nat, off: nat): nat
    requires n > 0
  {
    sizeAt(Slot(head + off, n))
  }

  /** All of the first `k` events start inside the ring and none is empty. */
  ghost predicate Full(sizeAt: nat -> nat, n: nat, head: nat, k: nat)
    requires n > 0
  {
    k > 0 ==>
      var b := Boundary(sizeAt, n, head, k - 1);
      Full(sizeAt, n, head, k - 1) && b < n && EventSize(sizeAt, n, head, b) > 0
  }

  /** The most events that fit: the next one is missing or does not fit. */
  ghost predicate Longest(sizeAt: nat -> nat, n: nat, head: nat, k: nat)
    requires n > 0
  {
    var b := Boundary(sizeAt, n, head, k);
    && Full(sizeAt, n, head, k) && b <= n
    && (b == n || EventSize(sizeAt, n, head, b) == 0 || b + EventSize(sizeAt, n, head, b) > n)
  }

  /** The search has passed `k` events, `off` bytes in all, the last of `w` bytes. */
  ghost predicate Walked(sizeAt: nat -> nat, n: nat, head: nat, k: nat, off: nat, evtHead: nat, w: nat)
    requires n > 0 && head < TWO_64
  {
    && Full(sizeAt, n, head, k) && off == Boundary(sizeAt, n, head, k) && off < n + 0x1_0000 < TWO_64
    && evtHead == Plus64(head, off)
    && (off >= n ==> k > 0) && (k > 0 ==> off == Boundary(sizeAt, n, head, k - 1) + w)
  }

  lemma WalkOn(sizeAt: nat -> nat, n: nat, head: nat, k: nat, off: nat, evtHead: nat, w: nat)
    requires IsRing(n) && head < TWO_64 && Walked(sizeAt, n, head, k, off, evtHead, w) && off < n
    requires sizeAt(Slot(evtHead, n)) < 0x1_0000
    ensures var w' := sizeAt(Slot(evtHead, n));
      if w' == 0 then Longest(sizeAt, n, head, k) else Walked(sizeAt, n, head, k + 1, off + w', Plus64(evtHead, w'), w')
  {
    PlusSlot(head, off, n);
  }

  lemma WalkEnd(sizeAt: nat -> nat, n: nat, head: nat, k: nat, off: nat, evtHead: nat, w: nat)
    requires n > 0 && head < TWO_64 && Walked(sizeAt, n, head, k, off, evtHead, w) && off >= n
    ensures off == n ==> Longest(sizeAt, n, head, k)
    ensures off > n ==> k > 0 && Longest(sizeAt, n, head, k - 1) && w < TWO_64
                        && Minus64(evtHead, w) == Plus64(head, Boundary(sizeAt, n, head, k - 1))
  {
  }

  lemma OffsetIs(head: nat, off: nat)
    requires head < TWO_64 && off < TWO_64
    ensures Minus64(Plus64(head, off), head) == off
  {
  }

  /** The search is over; an event that goes beyond the ring does not count. */
  method LastEvent(sizeAt: nat -> nat, n: nat, head: nat, evtHead: nat, w: nat, ghost k: nat, ghost off: nat)
    returns (evtHead': nat, ghost k': nat)
    requires IsRing(n) && head < TWO_64 && Walked(sizeAt, n, head, k, off, evtHead, w) && off >= n
    ensures Longest(sizeAt, n, head, k') && evtHead' == Plus64(head, Boundary(sizeAt, n, head, k'))
  {
    OffsetIs(head, off);
    WalkEnd(sizeAt, n, head, k, off, evtHead, w);
    evtHead', k' := evtHead, k;
    if Minus64(evtHead, head) > n { evtHead', k' := Minus64(evtHead, w), k - 1; }
  }

  /** One round of the search: past one more event, or to the end. */
  method NextEvent(sizeAt: nat -> nat, n: nat, head: nat, evtHead: nat, w: nat, ghost k: nat, ghost off: nat)
    returns (found: bool, evtHead': nat, w': nat, ghost k': nat, ghost off': nat)
    requires IsRing(n) && head < TWO_64 && Walked(sizeAt, n, head, k, off, evtHead, w)
    requires sizeAt(Slot(evtHead, n)) < 0x1_0000
    ensures found ==> Longest(sizeAt, n, head, k') && evtHead' == Plus64(head, Boundary(sizeAt, n, head, k'))
    ensures !found ==> Walked(sizeAt, n, head, k', off', evtHead', w') && off < off'
  {
    found, evtHead', w', k', off' := true, evtHead, w, k, off;
    OffsetIs(head, off);
    if Minus64(evtHead, head) >= n {
      evtHead', k' := LastEvent(sizeAt, n, head, evtHead, w, k, off);
      return;
    }
    WalkOn(sizeAt, n, head, k, off, evtHead, w);
    w' := sizeAt(Place(evtHead, n));
    if w' == 0 { return; }
    found, evtHead', k', off' := false, Plus64(evtHead, w'), k + 1, off + w';
  }

  /** `backward_rb_find_range`: ends at the last event boundary within the ring. */
  method BackwardFindRange(sizeAt: nat -> nat, n: nat, head: nat) returns (start: nat, end: nat, ghost k: nat)
    requires IsRing(n) && head < TWO_64 && forall p :: sizeAt(p) < 0x1_0000
    ensures start == head && Longest(sizeAt, n, head, k) && end == Plus64(head, Boundary(sizeAt, n, head, k))
  {
    start, end, k := head, head, 0;
    var headerSize, found := sizeAt(Place(head, n)), false;
    ghost var off := 0;
    while !found
      invariant 0 <= off
      invariant if found then Longest(sizeAt, n, head, k) && end == Plus64(head, Boundary(sizeAt, n, head, k))
                else Walked(sizeAt, n, head, k, off, end, headerSize)
      decreases !found, n + 0x1_0000 - off
    {
      found, end, headerSize, k, off := NextEvent(sizeAt, n, head, end, headerSize, k, off);
    }
  }

  // --- Reading ------------------------------------------------------------------------------------------

  /** What becomes of a write: it works, or fails after so many bytes. */
  datatype Outcome = Works | Fails(part: nat)

  function Taken(bytes: seq<Byte>, out: Outcome): (t: seq<Byte>)
    ensures t <= bytes
  {
    if out.Fails? && out.part < |bytes| then bytes[..out.part] else bytes
  }

  class Record {
    var file: seq<Byte>
    var bytesWritten: nat
    var samples: nat

    /** `record__write`; `out` says whether the file takes the bytes. */
    method Write(bytes: seq<Byte>, out: Outcome) returns (rc: int)
      modifies `file, `bytesWritten
      ensures file == old(file) + Taken(bytes, out)
      ensures if out.Works? then rc == 0 && bytesWritten == old(bytesWritten) + |bytes|
              else rc == -1 && bytesWritten == old(bytesWritten)
    {
      file := file + Taken(bytes, out);
      if out.Fails? { return -1; }
      bytesWritten := bytesWritten + |bytes|;
      rc := 0;
    }
  }

  class Mmap {
    /** The ring, as the kernel has filled it, and the position up to which it has. */
    var data: seq<Byte>
    var head: nat
    /** The position up to which the reader has read, and what it has told the kernel of it. */
    var prev: nat
    var tail: nat
    /** How often the mapping is in use; it is there while this is not zero. */
    var refcnt: nat
    /** There is a buffer for traces beside the ring. */
    const aux: bool

    ghost predicate Valid()
      reads this
    {
      IsRing(|data|) && head < TWO_64 && prev < TWO_64 && tail < TWO_64
    }

    /** `perf_mmap__empty` */
    predicate Empty()
      reads this
    {
      head == prev && !aux
    }

    /** `perf_mmap__consume`: the last user of the mapping drops it once the ring is empty. */
    method Consume(overwrite: bool)
      modifies `tail, `refcnt
      ensures tail == if overwrite then old(tail) else prev
      ensures refcnt == if old(refcnt) == 1 && Empty() then 0 else old(refcnt)
    {
      if !overwrite { tail := prev; }
      if refcnt == 1 && Empty() { refcnt := refcnt - 1; }
    }
  }

  lemma RangeEnd(start: nat, end: nat, n: nat)
    requires IsRing(n) && start < TWO_64 && end < TWO_64 && Minus64(end, start) <= n
    ensures var k := Minus64(end, start);
      Slot(end, n) == if Slot(start, n) + k < n then Slot(start, n) + k else Slot(start, n) + k - n
  {
    PlusSlot(start, Minus64(end, start), n);
    EndsAt(start, Minus64(end, start), n);
  }

  /** The bytes of a range up to the end of the ring, if the range goes on there or ends there. */
  ghost function FirstPart(n: nat, start: nat, end: nat): nat
    requires n > 0 && start < TWO_64 && end < TWO_64
  {
    if Slot(start, n) + Minus64(end, start) != Slot(end, n) then n - Slot(start, n) else 0
  }

  /** Both parts of a range are in one piece each, and together they are the range. */
  lemma Parts(data: seq<Byte>, start: nat, end: nat, k: nat, j: nat, from: nat)
    requires IsRing(|data|) && start < TWO_64 && end < TWO_64 && k == Minus64(end, start) <= |data|
    requires j == FirstPart(|data|, start, end) && from == Plus64(start, j)
    ensures j <= k && Slot(start, |data|) + j <= |data|
    ensures Minus64(end, from) == k - j && Slot(from, |data|) + (k - j) <= |data|
    ensures Circular(data, start, k) == Circular(data, start, j) + Circular(data, from, k - j)
  {
    var n := |data|;
    RangeEnd(start, end, n);
    EndsAt(start, j, n);
    PlusSlot(start, j, n);
    assert Circular(data, start, k) == Circular(data, start, j) + Circular(data, from, k - j) by {
      TwoChunks(data, start, j, k);
      SamePlace(data, start + j, from, k - j);
    }
  }

  /** The first half of the writing in `record__mmap_read`: up to the end of the ring. */
  method WriteFirst(rec: Record, data: seq<Byte>, start: nat, end: nat, out: Outcome) returns (rc: int, from: nat)
    requires IsRing(|data|) && start < TWO_64 && end < TWO_64 && Minus64(end, start) <= |data|
    modifies rec`file, rec`bytesWritten
    ensures var j := FirstPart(|data|, start, end);
      && from == Plus64(start, j) && (rc == 0 || rc == -1) && (rc == 0 <==> j == 0 || out.Works?)
      && rec.file == old(rec.file) + Taken(Circular(data, start, j), out)
      && rec.bytesWritten == old(rec.bytesWritten) + if rc == 0 then j else 0
  {
    var n, size := |data|, Minus64(end, start);
    rc, from := 0, start;
    Parts(data, start, end, size, FirstPart(n, start, end), Plus64(start, FirstPart(n, start, end)));
    if Place(start, n) + size != Place(end, n) {
      size := n - Place(start, n);
      OneChunk(data, start, size);
      rc := rec.Write(data[Place(start, n)..Place(start, n) + size], out);
      from := Plus64(start, size);
    }
  }

  /** The second half: what is left, in one piece. */
  method WriteSecond(rec: Record, data: seq<Byte>, from: nat, end: nat, out: Outcome) returns (rc: int)
    requires IsRing(|data|) && from < TWO_64 && end < TWO_64 && Slot(from, |data|) + Minus64(end, from) <= |data|
    modifies rec`file, rec`bytesWritten
    ensures (rc == 0 || rc == -1) && (rc == 0 <==> out.Works?)
    ensures rec.file == old(rec.file) + Taken(Circular(data, from, Minus64(end, from)), out)
    ensures rec.bytesWritten == old(rec.bytesWritten) + if rc == 0 then Minus64(end, from) else 0
  {
    var size := Minus64(end, from);
    OneChunk(data, from, size);
    rc := rec.Write(data[Place(from, |data|)..Place(from, |data|) + size], out);
  }

  /** The writing half of `record__mmap_read`. */
  method WriteRange(rec: Record, data: seq<Byte>, start: nat, end: nat, out: Outcome, out2: Outcome) returns (rc: int)
    requires IsRing(|data|) && start < TWO_64 && end < TWO_64 && Minus64(end, start) <= |data|
    modifies rec`file, rec`bytesWritten
    ensures var bytes := Circular(data, start, Minus64(end, start));
      && (rc == 0 ==> rec.file == old(rec.file) + bytes)
      && (rc != 0 ==> rc == -1 && old(rec.file) <= rec.file <= old(rec.file) + bytes)
    ensures rc == 0 <==> out2.Works? && (out.Works? || FirstPart(|data|, start, end) == 0)
    ensures rec.bytesWritten - old(rec.bytesWritten) <= |rec.file| - |old(rec.file)|
    ensures rc == 0 ==> rec.bytesWritten - old(rec.bytesWritten) == |rec.file| - |old(rec.file)|
  {
    var from;
    ghost var file := rec.file;
    ghost var k, j := Minus64(end, start), FirstPart(|data|, start, end);
    Parts(data, start, end, k, j, Plus64(start, j));
    rc, from := WriteFirst(rec, data, start, end, out);
    ghost var first, second := Circular(data, start, j), Circular(data, from, k - j);
    assert file + (first + second) == (file + first) + second;
    if rc < 0 { return; }
    rc := WriteSecond(rec, data, from, end, out2);
  }

  /** The size field of the event header at place `p`. */
  function HeaderSize(data: seq<Byte>, p: nat): (w: nat)
    ensures w < 0x1_0000
  {
    if data == [] then 0
    else
      var lo: nat, hi: nat := data[Slot(p + 6, |data|)], data[Slot(p + 7, |data|)];
      lo + 256 * hi
  }

  function Sizes(data: seq<Byte>): nat -> nat { p => HeaderSize(data, p) }

  /** The range of a read: from the last position to the head, or for a backward ring from the
      head to the last event boundary within the ring. */
  ghost predicate IsRange(data: seq<Byte>, head: nat, prev: nat, backward: bool, start: nat, end: nat)
    requires IsRing(|data|) && head < TWO_64
  {
    if !backward then start == prev && end == head
    else start == head && exists k :: Longest(Sizes(data), |data|, head, k)
                                      && end == Plus64(head, Boundary(Sizes(data), |data|, head, k))
  }

  /** `rb_find_range` */
  method FindRange(data: seq<Byte>, head: nat, prev: nat, backward: bool) returns (start: nat, end: nat)
    requires IsRing(|data|) && head < TWO_64 && prev < TWO_64
    ensures start < TWO_64 && end < TWO_64 && IsRange(data, head, prev, backward, start, end)
    ensures backward ==> Minus64(end, start) <= |data|
  {
    if !backward { return prev, head; }
    ghost var k;
    start, end, k := BackwardFindRange(Sizes(data), |data|, head);
  }

  /** `record__mmap_read`; a backward ring is never overrun. */
  method MmapRead(rec: Record, md: Mmap, overwrite: bool, backward: bool, out: Outcome, out2: Outcome)
    returns (rc: int, ghost start: nat, ghost end: nat)
    requires md.Valid() && md.refcnt > 0
    modifies rec, md`prev, md`tail, md`refcnt
    ensures md.Valid() && start < TWO_64 && end < TWO_64
    ensures IsRange(md.data, md.head, old(md.prev), backward, start, end)
    ensures start == end ==> rc == 0 && unchanged(rec) && unchanged(md)
    ensures start != end ==> rec.samples == old(rec.samples) + 1
    ensures start != end && rc == 0 ==>
      md.prev == md.head && md.tail == if overwrite || backward then old(md.tail) else md.head
    ensures start != end && rc == 0 ==>
      rec.file == old(rec.file)
                  + if Minus64(end, start) <= |md.data| then Circular(md.data, start, Minus64(end, start)) else []
    ensures backward ==> Minus64(end, start) <= |md.data|
    ensures rc != 0 ==> rc == -1 && md.prev == old(md.prev) && md.tail == old(md.tail)
    ensures rc != 0 ==> old(rec.file) <= rec.file <= old(rec.file) + Circular(md.data, start, Minus64(end, start))
    ensures rc == 0 <==>
      || start == end || Minus64(end, start) > |md.data|
      || (out2.Works? && (out.Works? || FirstPart(|md.data|, start, end) == 0))
    ensures rc == 0 ==> rec.bytesWritten - old(rec.bytesWritten) == |rec.file| - |old(rec.file)|
    ensures md.refcnt == if start != end && rc == 0 && old(md.refcnt) == 1 && !md.aux then 0 else old(md.refcnt)
  {
    var head := md.head;
    var from, to := FindRange(md.data, head, md.prev, backward);
    start, end, rc := from, to, 0;
    if from == to { return; }
    rec.samples := rec.samples + 1;
    if Minus64(to, from) > |md.data| {
      md.prev := head;
      md.Consume(overwrite || backward);
      return;
    }
    rc := WriteRange(rec, md.data, from, to, out, out2);
    if rc < 0 { return; }
    md.prev := head;
    md.Consume(overwrite || backward);
  }

  // --- Kernel and reader ------------------------------------------------------------------------------------

  /** The bytes that have not been read yet are still in the ring. */
  ghost predicate Kept(data: seq<Byte>, stream: seq<Byte>, pos: nat)
    requires |data| > 0
  {
    forall i :: pos <= i < |stream| ==> data[Slot(i, |data|)] == stream[i]
  }

  /** The kernel has produced `stream` and knows that the reader has taken `pos` bytes of it; the
      positions are those counts modulo 2^64. */
  ghost predicate InStep(md: Mmap, stream: seq<Byte>, pos: nat)
    reads md
  {
    && md.Valid() && pos <= |stream| <= pos + |md.data| && md.head == Slot(|stream|, TWO_64)
    && md.tail == md.prev == Slot(pos, TWO_64) && Kept(md.data, stream, pos)
  }

  lemma {:induction false} CounterDistance(pos: nat, k: nat)
    requires k < TWO_64
    ensures Minus64(Slot(pos + k, TWO_64), Slot(pos, TWO_64)) == k
    decreases pos
  {
    if pos >= TWO_64 { CounterDistance(pos - TWO_64, k); }
  }

  lemma {:induction false} CounterSlot(pos: nat, n: nat)
    requires IsRing(n)
    ensures Slot(Slot(pos, TWO_64), n) == Slot(pos, n)
    decreases pos
  {
    if pos >= TWO_64 {
      CounterSlot(pos - TWO_64, n);
      Wrapped(pos, n);
    }
  }

  lemma KeptAt(data: seq<Byte>, stream: seq<Byte>, pos: nat, i: nat, j: nat)
    requires IsRing(|data|) && pos <= i <= j <= |stream| && Kept(data, stream, pos)
    ensures Circular(data, i, j - i) == stream[i..j]
  {
    var c := Circular(data, i, j - i);
    forall x | 0 <= x < j - i
      ensures c[x] == stream[i..j][x]
    {
      assert c[x] == data[Slot(i + x, |data|)] && stream[i..j][x] == stream[i + x];
    }
  }

  /** What the ring holds from position `i` up to `j`. */
  lemma KeptBytes(data: seq<Byte>, stream: seq<Byte>, pos: nat, i: nat, j: nat)
    requires IsRing(|data|) && pos <= i <= j <= |stream| && Kept(data, stream, pos)
    ensures Circular(data, Slot(i, TWO_64), j - i) == stream[i..j]
  {
    CounterSlot(i, |data|);
    SamePlace(data, Slot(i, TWO_64), i, j - i);
    KeptAt(data, stream, pos, i, j);
  }

  lemma DistinctSlots(i: nat, j: nat, n: nat)
    requires n > 0 && i < j < i + n
    ensures Slot(i, n) != Slot(j, n)
  {
    EndsAt(i, j - i, n);
  }

  lemma KeptMore(data: seq<Byte>, stream: seq<Byte>, pos: nat, b: Byte)
    requires |data| > 0 && pos <= |stream| < pos + |data| && Kept(data, stream, pos)
    ensures Kept(data[Slot(|stream|, |data|) := b], stream + [b], pos)
  {
    var data', stream' := data[Slot(|stream|, |data|) := b], stream + [b];
    forall i | pos <= i < |stream'|
      ensures data'[Slot(i, |data|)] == stream'[i]
    {
      if i < |stream| { DistinctSlots(i, |stream|, |data|); }
    }
  }

  /** What the kernel has produced after it was offered `b`, in a ring of `n` bytes of which the
      reader has taken those up to `pos`. */
  ghost function Accepted(stream: seq<Byte>, pos: nat, n: nat, b: Byte): seq<Byte> {
    if |stream| < pos + n then stream + [b] else stream
  }

  /** The kernel adds a byte, if the tail leaves room for it. */
  method Produce(md: Mmap, b: Byte, ghost stream: seq<Byte>, ghost pos: nat)
    requires InStep(md, stream, pos)
    modifies md`data, md`head
    ensures InStep(md, Accepted(stream, pos, |md.data|, b), pos) && |md.data| == old(|md.data|)
  {
    CounterDistance(pos, |stream| - pos);
    if Minus64(md.head, md.tail) < |md.data| {
      CounterSlot(|stream|, |md.data|);
      KeptMore(md.data, stream, pos, b);
      SlotPlus(|stream|, 1);
      md.data := md.data[Place(md.head, |md.data|) := b];
      md.head := Plus64(md.head, 1);
    }
  }

  // --- Whole runs -----------------------------------------------------------------------------------------

  /** A read that writes all brings the file up to the head, and tells the kernel; the last user of the
      mapping then drops it, and nothing is lost. */
  method ReadForward(rec: Record, md: Mmap, ghost stream: seq<Byte>, ghost pos: nat, out: Outcome, out2: Outcome)
    returns (rc: int)
    requires InStep(md, stream, pos) && rec.file == stream[..pos] && md.refcnt > 0
    modifies rec, md`prev, md`tail, md`refcnt
    ensures rc == 0 ==> InStep(md, stream, |stream|) && rec.file == stream
    ensures out.Works? && out2.Works? ==> rc == 0
    ensures stream[..pos] <= rec.file <= stream && (md.refcnt == 0 ==> rec.file == stream)
    ensures md.refcnt == 0 <==> old(md.refcnt) == 1 && !md.aux && rc == 0 && pos < |stream|
    ensures md.refcnt == 0 || md.refcnt == old(md.refcnt)
  {
    CounterDistance(pos, |stream| - pos);
    KeptBytes(md.data, stream, pos, pos, |stream|);
    assert stream == stream[..pos] + stream[pos..|stream|] && stream[..|stream|] == stream;
    ghost var start, end;
    rc, start, end := MmapRead(rec, md, false, false, out, out2);
  }

  /** A byte offered to the kernel, or a read. */
  datatype Op = Byte(b: Byte) | Read

  /** What the kernel has produced and the reader taken after the operations. */
  ghost function After(stream: seq<Byte>, pos: nat, n: nat, ops: seq<Op>): (r: (seq<Byte>, nat)) {
    if ops == [] then (stream, pos)
    else
      var (s, p), op := After(stream, pos, n, ops[..|ops| - 1]), ops[|ops| - 1];
      if op.Read? then (s, |s|) else (Accepted(s, p, n, op.b), p)
  }

  /** Over any interleaving of kernel and reader, whatever the positions started at, the file is
      what the kernel had produced by the last read: nothing is lost, repeated or reordered, and
      a byte is refused exactly when the tail leaves no room. */
  method Run(rec: Record, md: Mmap, ops: seq<Op>, ghost stream: seq<Byte>, ghost pos: nat)
    requires InStep(md, stream, pos) && rec.file == stream[..pos] && md.refcnt > 1
    modifies rec, md
    ensures var (s, p) := After(stream, pos, old(|md.data|), ops); InStep(md, s, p) && rec.file == s[..p]
  {
    ghost var s, p := stream, pos;
    for i := 0 to |ops|
      invariant |md.data| == old(|md.data|) && (s, p) == After(stream, pos, |md.data|, ops[..i])
      invariant InStep(md, s, p) && rec.file == s[..p] && md.refcnt > 1
    {
      assert ops[..i + 1][..i] == ops[..i];
      match ops[i] {
        case Byte(b) =>
          Produce(md, b, s, p);
          s := Accepted(s, p, |md.data|, b);
        case Read =>
          var _ := ReadForward(rec, md, s, p, Works, Works);
          p := |s|;
          assert s[..p] == s;
      }
    }
    assert ops[..|ops|] == ops;
  }

  // --- Reads in steps ------------------------------------------------------------------------------------

  /** Where a read stands: before it, with the head fetched, with the part up to the end of the
      ring written, and with all written. */
  datatype Phase = Idle | Fetched | Half | Written

  /** A byte offered to the kernel, or the reader's next step. */
  datatype Turn = Offer(b: Byte) | Step

  /** What the kernel has produced, how much of it the kernel knows to be taken, how far the read
      under way goes, and its phase. */
  datatype Sim = Sim(stream: seq<Byte>, taken: nat, goal: nat, phase: Phase)

  ghost function Next(n: nat, m: Sim, turn: Turn): Sim {
    match turn
    case Offer(b) => m.(stream := Accepted(m.stream, m.taken, n, b))
    case Step =>
      match m.phase
      case Idle => if |m.stream| == m.taken then m else m.(goal := |m.stream|, phase := Fetched)
      case Fetched => m.(phase := Half)
      case Half => m.(phase := Written)
      case Written => m.(taken := m.goal, phase := Idle)
  }

  ghost function Turned(n: nat, m: Sim, turns: seq<Turn>): Sim {
    if turns == [] then m else Next(n, Turned(n, m, turns[..|turns| - 1]), turns[|turns| - 1])
  }

  /** The bytes up to the end of the ring, of those from `i` up to `j`. */
  ghost function Middle(n: nat, i: nat, j: nat): nat
    requires n > 0 && i <= j
  {
    i + FirstPart(n, Slot(i, TWO_64), Slot(j, TWO_64))
  }

  /** How many bytes are in the file. */
  ghost function Filed(n: nat, m: Sim): nat
    requires n > 0 && (m.phase != Idle ==> m.taken <= m.goal)
  {
    match m.phase
    case Idle => m.taken
    case Fetched => m.taken
    case Half => Middle(n, m.taken, m.goal)
    case Written => m.goal
  }

  lemma Joined(stream: seq<Byte>, i: nat, j: nat)
    requires i <= j <= |stream|
    ensures stream[..i] + stream[i..j] == stream[..j]
  {
  }

  /** The part of a read up to the end of the ring. */
  lemma FirstHalf(data: seq<Byte>, stream: seq<Byte>, i: nat, j: nat, mid: nat)
    requires IsRing(|data|) && i <= j <= |stream| <= i + |data| && Kept(data, stream, i) && mid == Middle(|data|, i, j)
    ensures var start, end := Slot(i, TWO_64), Slot(j, TWO_64);
      && Minus64(end, start) <= |data| && mid <= j && FirstPart(|data|, start, end) == mid - i
      && Plus64(start, mid - i) == Slot(mid, TWO_64) && Circular(data, start, mid - i) == stream[i..mid]
      && Slot(Slot(mid, TWO_64), |data|) + (j - mid) <= |data|
  {
    var start, end := Slot(i, TWO_64), Slot(j, TWO_64);
    var p := FirstPart(|data|, start, end);
    assert Minus64(end, start) == j - i by { CounterDistance(i, j - i); }
    Parts(data, start, end, j - i, p, Plus64(start, p));
    assert Plus64(start, p) == Slot(mid, TWO_64) by { SlotPlus(i, p); }
    assert Circular(data, start, p) == stream[i..mid] by { KeptBytes(data, stream, i, i, mid); }
  }

  class Reader {
    const rec: Record
    const md: Mmap
    var phase: Phase
    /** `start` and `end` */
    var start: nat
    var end: nat

    /** Reader, kernel and file are where `m` says. */
    ghost predicate Follows(m: Sim)
      reads this, rec, md
    {
      && InStep(md, m.stream, m.taken) && md.refcnt > 1 && phase == m.phase
      && (m.phase != Idle ==> m.taken < m.goal <= |m.stream|)
      && (m.phase != Idle ==> end == Slot(m.goal, TWO_64)) && (m.phase == Fetched ==> start == Slot(m.taken, TWO_64))
      && Filed(|md.data|, m) <= |m.stream| && rec.file == m.stream[..Filed(|md.data|, m)]
      && (m.phase == Half ==>
            && start == Slot(Middle(|md.data|, m.taken, m.goal), TWO_64) && Middle(|md.data|, m.taken, m.goal) <= m.goal
            && Slot(start, |md.data|) + (m.goal - Middle(|md.data|, m.taken, m.goal)) <= |md.data|)
    }

    constructor (rec: Record, md: Mmap, ghost stream: seq<Byte>, ghost pos: nat)
      requires InStep(md, stream, pos) && rec.file == stream[..pos] && md.refcnt > 1
      ensures this.rec == rec && this.md == md && Follows(Sim(stream, pos, pos, Idle))
    {
      this.rec, this.md, phase, start, end := rec, md, Idle, 0, 0;
    }

    /** The kernel's turn; whatever the reader is about, no byte that it needs is overwritten. */
    method Offered(b: Byte, ghost m: Sim)
      requires Follows(m)
      modifies md`data, md`head
      ensures Follows(Next(|md.data|, m, Offer(b))) && |md.data| == old(|md.data|)
    {
      Produce(md, b, m.stream, m.taken);
    }

    /** The head is fetched. */
    method Fetch(ghost m: Sim)
      requires Follows(m) && phase == Idle
      modifies this, rec`samples
      ensures Follows(Next(|md.data|, m, Step))
    {
      CounterDistance(m.taken, |m.stream| - m.taken);
      if md.prev == md.head { return; }
      rec.samples := rec.samples + 1;
      start, end, phase := md.prev, md.head, Fetched;
    }

    /** The part up to the end of the ring is written. */
    method CopyFirst(ghost m: Sim)
      requires Follows(m) && phase == Fetched
      modifies this, rec`file, rec`bytesWritten
      ensures Follows(Next(|md.data|, m, Step))
    {
      ghost var mid := Middle(|md.data|, m.taken, m.goal);
      FirstHalf(md.data, m.stream, m.taken, m.goal, mid);
      Joined(m.stream, m.taken, mid);
      var _, from := WriteFirst(rec, md.data, start, end, Works);
      start, phase := from, Half;
    }

    /** The rest is written. */
    method CopySecond(ghost m: Sim)
      requires Follows(m) && phase == Half
      modifies this, rec`file, rec`bytesWritten
      ensures Follows(Next(|md.data|, m, Step))
    {
      ghost var i := Middle(|md.data|, m.taken, m.goal);
      CounterDistance(i, m.goal - i);
      KeptBytes(md.data, m.stream, m.taken, i, m.goal);
      Joined(m.stream, i, m.goal);
      var _ := WriteSecond(rec, md.data, start, end, Works);
      phase := Written;
    }

    /** The kernel is told. */
    method Publish(ghost m: Sim)
      requires Follows(m) && phase == Written
      modifies this, md`prev, md`tail, md`refcnt
      ensures Follows(Next(|md.data|, m, Step))
    {
      md.prev := end;
      md.Consume(false);
      phase := Idle;
    }

    method TakeStep(ghost m: Sim)
      requires Follows(m)
      modifies this, rec, md`prev, md`tail, md`refcnt
      ensures Follows(Next(|md.data|, m, Step))
    {
      match phase {
        case Idle => Fetch(m);
        case Fetched => CopyFirst(m);
        case Half => CopySecond(m);
        case Written => Publish(m);
      }
    }

    /** Over any interleaving of the kernel with the single steps of reads, the file is a prefix of
        what the kernel has produced, and holds all that was there when the last finished read
        began. */
    method RunSteps(turns: seq<Turn>, ghost m0: Sim)
      requires Follows(m0)
      modifies this, rec, md
      ensures Follows(Turned(old(|md.data|), m0, turns))
    {
      ghost var m := m0;
      for i := 0 to |turns|
        invariant |md.data| == old(|md.data|) && m == Turned(|md.data|, m0, turns[..i]) && Follows(m)
      {
        assert turns[..i + 1][..i] == turns[..i];
        match turns[i] {
          case Offer(b) => Offered(b, m);
          case Step => TakeStep(m);
        }
        m := Next(|md.data|, m, turns[i]);
      }
      assert turns[..|turns|] == turns;
    }
  }

  lemma {:induction false} SlotPlus(x: nat, k: nat)
    requires k < TWO_64
    ensures Plus64(Slot(x, TWO_64), k) == Slot(x + k, TWO_64)
  {
    if x >= TWO_64 { SlotPlus(x - TWO_64, k); }
  }
}
