/** What `perf record` reads from a backward ring, in terms of the events that the kernel has put there. */
module RingEvents {
  import opened Machine
  import opened RingBuffer

  /** A record of the kernel: `struct perf_event_header` without its size, and what follows it. */
  datatype PerfEvent = PerfEvent(kind: nat, misc: nat, payload: seq<Byte>) {
    function Size(): nat { 8 + |payload| }

    /** The fields fit their widths. */
    ghost predicate Valid() { kind < TWO_32 && misc < TWO_16 && Size() < TWO_16 }
  }

  /** The `k` bytes of a number, the lowest first. */
  ghost function Little(x: nat, k: nat): (b: seq<Byte>)
    ensures |b| == k
  {
    if k == 0 then [] else [x % 256] + Little(x / 256, k - 1)
  }

  /** The bytes of an event: type, misc, size and the rest. */
  ghost function Bytes(e: PerfEvent): (b: seq<Byte>)
    ensures |b| == e.Size()
  {
    Little(e.kind, 4) + Little(e.misc, 2) + Little(e.Size(), 2) + e.payload
  }

  ghost function AllBytes(es: seq<PerfEvent>): seq<Byte> {
    if es == [] then [] else AllBytes(es[..|es| - 1]) + Bytes(es[|es| - 1])
  }

  /** After the events comes nothing: the ring is full, or the rest of it is zero, or it is the
      start of an event whose other bytes have been overwritten. */
  ghost predicate Stops(rest: seq<Byte>) {
    || rest == []
    || (|rest| >= 8 && forall i :: 0 <= i < |rest| ==> rest[i] == 0)
    || (|rest| >= 8 && exists e: PerfEvent :: e.Valid() && |rest| < e.Size() && rest == Bytes(e)[..|rest|])
  }

  /** From `head` on, going round once, the ring holds the events and no more. */
  ghost predicate Holds(data: seq<Byte>, head: nat, es: seq<PerfEvent>)
    requires |data| > 0
  {
    && (forall i :: 0 <= i < |es| ==> es[i].Valid()) && |AllBytes(es)| <= |data|
    && Circular(data, head, |AllBytes(es)|) == AllBytes(es)
    && Stops(Circular(data, head + |AllBytes(es)|, |data| - |AllBytes(es)|))
  }

  // --- Reading sizes ---------------------------------------------------------------------------------

  lemma SizeBytes(e: PerfEvent)
    requires e.Valid()
    ensures var lo: nat, hi: nat := Bytes(e)[6], Bytes(e)[7]; lo + 256 * hi == e.Size()
  {
    var size := Little(e.Size(), 2);
    assert Little(e.Size() / 256, 1)[0] == e.Size() / 256 % 256;
    assert size[0] == e.Size() % 256 && size[1] == e.Size() / 256 % 256;
    assert Bytes(e)[6] == size[0] && Bytes(e)[7] == size[1];
  }

  lemma ByteAt(data: seq<Byte>, s: nat, i: nat)
    requires |data| > 0 && i < 8
    ensures Circular(data, s, 8)[i] == data[Slot(Slot(s, |data|) + i, |data|)]
  {
    SlotSum(s, i, |data|);
  }

  /** The size that a search finds is that of the bytes six and seven further on. */
  lemma SizeAt(data: seq<Byte>, s: nat, p: nat, b: seq<Byte>)
    requires |data| > 0 && p == Slot(s, |data|) && b == Circular(data, s, 8)
    ensures var lo: nat, hi: nat := b[6], b[7]; Sizes(data)(p) == lo + 256 * hi
  {
    ByteAt(data, s, 6);
    ByteAt(data, s, 7);
  }

  lemma CircularPart(data: seq<Byte>, s: nat, k: nat, i: nat, j: nat)
    requires |data| > 0 && i + j <= k
    ensures Circular(data, s + i, j) == Circular(data, s, k)[i..i + j]
  {
    TwoChunks(data, s, i, k);
    TwoChunks(data, s + i, j, k - i);
  }

  lemma SizeOfEvent(data: seq<Byte>, s: nat, e: PerfEvent, k: nat)
    requires |data| > 0 && e.Valid() && 8 <= k <= e.Size() && Circular(data, s, k) == Bytes(e)[..k]
    ensures Sizes(data)(Slot(s, |data|)) == e.Size()
  {
    SizeAt(data, s, Slot(s, |data|), Circular(data, s, 8));
    SizeBytes(e);
    CircularPart(data, s, k, 0, 8);
    assert Bytes(e)[..k][0..8][6] == Bytes(e)[6] && Bytes(e)[..k][0..8][7] == Bytes(e)[7];
  }

  lemma {:induction false} AllBytesPart(es: seq<PerfEvent>, j: nat)
    requires j < |es|
    ensures var from, to := |AllBytes(es[..j])|, |AllBytes(es[..j + 1])|;
      from + es[j].Size() == to <= |AllBytes(es)| && AllBytes(es)[from..to] == Bytes(es[j])
  {
    var n := |es| - 1;
    assert es[..j + 1][..j] == es[..j];
    if j == n {
      assert es[..j + 1] == es;
    } else {
      AllBytesPart(es[..n], j);
      assert es[..n][..j] == es[..j] && es[..n][..j + 1] == es[..j + 1];
      var from, to := |AllBytes(es[..j])|, |AllBytes(es[..j + 1])|;
      assert AllBytes(es)[from..to] == AllBytes(es[..n])[from..to];
    }
  }

  lemma SizeOfNth(data: seq<Byte>, head: nat, es: seq<PerfEvent>, j: nat)
    requires |data| > 0 && Holds(data, head, es) && j < |es|
    ensures EventSize(Sizes(data), |data|, head, |AllBytes(es[..j])|) == es[j].Size()
    ensures |AllBytes(es[..j])| + es[j].Size() == |AllBytes(es[..j + 1])| <= |AllBytes(es)|
  {
    AllBytesPart(es, j);
    var from := |AllBytes(es[..j])|;
    CircularPart(data, head, |AllBytes(es)|, from, es[j].Size());
    assert Bytes(es[j])[..es[j].Size()] == Bytes(es[j]);
    SizeOfEvent(data, head + from, es[j], es[j].Size());
  }

  lemma StopsSize(data: seq<Byte>, s: nat, k: nat)
    requires |data| > 0 && k > 0 && Stops(Circular(data, s, k))
    ensures Sizes(data)(Slot(s, |data|)) == 0 || Sizes(data)(Slot(s, |data|)) > k
  {
    var rest := Circular(data, s, k);
    if forall i :: 0 <= i < |rest| ==> rest[i] == 0 {
      SizeAt(data, s, Slot(s, |data|), Circular(data, s, 8));
      CircularPart(data, s, k, 0, 8);
      assert rest[0..8][6] == rest[6] && rest[0..8][7] == rest[7];
    } else {
      var e: PerfEvent :| e.Valid() && |rest| < e.Size() && rest == Bytes(e)[..|rest|];
      SizeOfEvent(data, s, e, k);
    }
  }

  // --- The search --------------------------------------------------------------------------------------

  lemma {:induction false} EventsWalked(data: seq<Byte>, head: nat, es: seq<PerfEvent>, j: nat)
    requires |data| > 0 && Holds(data, head, es) && j <= |es|
    ensures Boundary(Sizes(data), |data|, head, j) == |AllBytes(es[..j])| <= |data|
    ensures Full(Sizes(data), |data|, head, j)
  {
    if j > 0 {
      EventsWalked(data, head, es, j - 1);
      SizeOfNth(data, head, es, j - 1);
    } else {
      assert es[..0] == [];
    }
  }

  lemma EventsEnd(data: seq<Byte>, head: nat, b: nat, size: nat)
    requires |data| > 0 && b <= |data| && Stops(Circular(data, head + b, |data| - b))
    requires size == EventSize(Sizes(data), |data|, head, b)
    ensures b == |data| || size == 0 || b + size > |data|
  {
    if b < |data| { StopsSize(data, head + b, |data| - b); }
  }

  lemma AllWalked(data: seq<Byte>, head: nat, es: seq<PerfEvent>)
    requires |data| > 0 && Holds(data, head, es)
    ensures Boundary(Sizes(data), |data|, head, |es|) == |AllBytes(es)| <= |data|
    ensures Full(Sizes(data), |data|, head, |es|)
  {
    EventsWalked(data, head, es, |es|);
    assert es[..|es|] == es;
  }

  lemma EventsLongest(data: seq<Byte>, head: nat, k: nat, b: nat)
    requires |data| > 0 && Full(Sizes(data), |data|, head, k) && b == Boundary(Sizes(data), |data|, head, k) <= |data|
    requires Stops(Circular(data, head + b, |data| - b))
    ensures Longest(Sizes(data), |data|, head, k)
  {
    EventsEnd(data, head, b, EventSize(Sizes(data), |data|, head, b));
  }

  lemma EventsFill(data: seq<Byte>, head: nat, es: seq<PerfEvent>)
    requires |data| > 0 && Holds(data, head, es)
    ensures Longest(Sizes(data), |data|, head, |es|)
    ensures Boundary(Sizes(data), |data|, head, |es|) == |AllBytes(es)| <= |data|
  {
    AllWalked(data, head, es);
    EventsLongest(data, head, |es|, |AllBytes(es)|);
  }

  lemma {:induction false} FullGrows(sizeAt: nat -> nat, n: nat, head: nat, j: nat, k: nat)
    requires n > 0 && j < k && Full(sizeAt, n, head, k)
    ensures Boundary(sizeAt, n, head, j) < n && EventSize(sizeAt, n, head, Boundary(sizeAt, n, head, j)) > 0
    ensures Boundary(sizeAt, n, head, j + 1) <= Boundary(sizeAt, n, head, k)
  {
    if j < k - 1 { FullGrows(sizeAt, n, head, j, k - 1); }
  }

  /** There is just one longest run of events. */
  lemma OneLongest(sizeAt: nat -> nat, n: nat, head: nat, j: nat, k: nat)
    requires n > 0 && Longest(sizeAt, n, head, j) && Longest(sizeAt, n, head, k)
    ensures j == k
  {
    if j < k { FullGrows(sizeAt, n, head, j, k); }
    if k < j { FullGrows(sizeAt, n, head, k, j); }
  }

  lemma LongestRange(sizeAt: nat -> nat, n: nat, head: nat, k: nat, j: nat, b: nat, end: nat)
    requires 0 < n < TWO_64 && head < TWO_64 && Longest(sizeAt, n, head, j) && b == Boundary(sizeAt, n, head, j)
    requires Longest(sizeAt, n, head, k) && end == Plus64(head, Boundary(sizeAt, n, head, k))
    ensures end == Plus64(head, b) && Minus64(end, head) == b
  {
    OneLongest(sizeAt, n, head, j, k);
    OffsetIs(head, b);
  }

  /** The range of a backward read is that of the events in the ring. */
  lemma RangeOfEvents(data: seq<Byte>, head: nat, prev: nat, start: nat, end: nat, es: seq<PerfEvent>)
    requires IsRing(|data|) && head < TWO_64 && Holds(data, head, es)
    requires IsRange(data, head, prev, true, start, end)
    ensures start == head && end == Plus64(head, |AllBytes(es)|) && Minus64(end, start) == |AllBytes(es)|
  {
    var k :| Longest(Sizes(data), |data|, head, k) && end == Plus64(head, Boundary(Sizes(data), |data|, head, k));
    EventsFill(data, head, es);
    LongestRange(Sizes(data), |data|, head, k, |es|, |AllBytes(es)|, end);
  }

  /** `record__mmap_read` on a backward ring: the file gets the events in the ring, from the latest to
      the oldest that is whole, byte for byte. */
  method ReadBackward(rec: Record, md: Mmap, overwrite: bool, out: Outcome, out2: Outcome, ghost es: seq<PerfEvent>)
    returns (rc: int)
    requires md.Valid() && md.refcnt > 0 && Holds(md.data, md.head, es)
    modifies rec, md`prev, md`tail, md`refcnt
    ensures md.Valid() && md.tail == old(md.tail) && (out.Works? && out2.Works? ==> rc == 0)
    ensures rc == 0 ==> rec.file == old(rec.file) + AllBytes(es) && (es != [] ==> md.prev == md.head)
    ensures rc != 0 ==> old(rec.file) <= rec.file <= old(rec.file) + AllBytes(es) && md.prev == old(md.prev)
    ensures es == [] ==> rc == 0 && unchanged(rec) && unchanged(md)
  {
    ghost var prev := md.prev;
    ghost var start, end;
    rc, start, end := MmapRead(rec, md, overwrite, true, out, out2);
    RangeOfEvents(md.data, md.head, prev, start, end, es);
    if es != [] {
      assert |AllBytes(es)| > 0;
    }
  }
}
