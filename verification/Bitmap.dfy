/** Operations on whole bitmaps. */
module Bitmap {
  import opened FindBit
  import opened Hweight

  predicate Bit(words: seq<Word>, i: nat)
    requires i < 64 * |words|
  {
    words[i / 64][i % 64]
  }

  /** The first `n` bits of a bitmap. */
  ghost function Below(words: seq<Word>, n: nat): (s: seq<bool>)
    requires n <= 64 * |words|
    ensures |s| == n
  {
    seq(n, i requires 0 <= i < n => Bit(words, i))
  }

  ghost function Members(bits: seq<bool>): set<nat> { set i | 0 <= i < |bits| && bits[i] }

  /** Counting bits is counting the members of the set. */
  lemma {:induction false} CountMembers(bits: seq<bool>)
    ensures Count(bits) == |Members(bits)|
  {
    if bits == [] {
      assert Members(bits) == {};
    } else {
      var n := |bits| - 1;
      CountMembers(bits[..n]);
      if bits[n] {
        assert Members(bits) == Members(bits[..n]) + {n};
      } else {
        assert Members(bits) == Members(bits[..n]);
      }
    }
  }

  // --- Weight -----------------------------------------------------------------------------------

  lemma NextWord(words: seq<Word>, k: nat, m: nat, w: seq<bool>)
    requires k < |words| && m <= 64 && w == words[k][..m]
    ensures Below(words, 64 * k + m) == Below(words, 64 * k) + w
  {
    var a, b := Below(words, 64 * k + m), Below(words, 64 * k) + w;
    forall i | 0 <= i < 64 * k + m
      ensures a[i] == b[i]
    {
      if i >= 64 * k { InWord(64 * k, i); }
    }
  }

  lemma {:induction false} NoneSet(s: seq<bool>)
    requires IsZero(s)
    ensures Count(s) == 0
  {
    if s != [] { NoneSet(s[..|s| - 1]); }
  }

  /** Masking the last word leaves its first bits. */
  lemma MaskedCount(w: Word, m: nat)
    requires m <= 64
    ensures Count(And(w, LastMask(m))) == Count(w[..m])
  {
    var a := And(w, LastMask(m));
    assert a[..m] == w[..m] && IsZero(a[m..]);
    NoneSet(a[m..]);
    CountConcat(a[..m], a[m..]);
    assert a == a[..m] + a[m..];
  }

  /** The first `m` bits of word `k` add their count. */
  lemma CountMore(words: seq<Word>, k: nat, m: nat)
    requires k < |words| && m <= 64
    ensures Count(Below(words, 64 * k + m)) == Count(Below(words, 64 * k)) + Count(words[k][..m])
  {
    NextWord(words, k, m, words[k][..m]);
    CountConcat(Below(words, 64 * k), words[k][..m]);
  }

  lemma CountWord(words: seq<Word>, k: nat)
    requires k < |words|
    ensures Count(Below(words, 64 * (k + 1))) == Count(Below(words, 64 * k)) + Count(words[k])
  {
    CountMore(words, k, 64);
    assert words[k][..64] == words[k];
  }

  lemma PartWord(words: seq<Word>, k: nat, m: nat)
    requires k < |words| && m <= 64
    ensures Count(Below(words, 64 * k + m)) == Count(Below(words, 64 * k)) + Count(And(words[k], LastMask(m)))
  {
    CountMore(words, k, m);
    MaskedCount(words[k], m);
  }

  /** `__bitmap_weight`; `hweight_long` is the count by arithmetic on the machine word. */
  method Weight(bitmap: seq<Word>, bits: nat) returns (w: nat)
    requires bits <= 64 * |bitmap|
    ensures w == Count(Below(bitmap, bits)) == |Members(Below(bitmap, bits))|
  {
    w := 0;
    var k, lim := 0, bits / 64;
    while k < lim
      invariant 0 <= k <= lim && w == Count(Below(bitmap, 64 * k))
    {
      CountWord(bitmap, k);
      var n := HweightLong(bitmap[k]);
      k, w := k + 1, w + n;
    }
    if bits % 64 != 0 {
      PartWord(bitmap, k, bits % 64);
      var n := HweightLong(And(bitmap[k], LastMask(bits % 64)));
      w := w + n;
    }
    assert bits == 64 * k + bits % 64;
    CountMembers(Below(bitmap, bits));
  }

  // --- Or and and ------------------------------------------------------------------------------------

  ghost function Both(s: seq<bool>, t: seq<bool>): seq<bool>
    requires |s| == |t|
  {
    seq(|s|, i requires 0 <= i < |s| => s[i] && t[i])
  }

  ghost function Either(s: seq<bool>, t: seq<bool>): seq<bool>
    requires |s| == |t|
  {
    seq(|s|, i requires 0 <= i < |s| => s[i] || t[i])
  }

  /** What two bitmaps have in common is counted twice. */
  lemma {:induction false} WeightSum(s: seq<bool>, t: seq<bool>)
    requires |s| == |t|
    ensures Count(s) + Count(t) == Count(Either(s, t)) + Count(Both(s, t))
  {
    if s != [] {
      var n := |s| - 1;
      WeightSum(s[..n], t[..n]);
      assert Either(s, t)[..n] == Either(s[..n], t[..n]) && Both(s, t)[..n] == Both(s[..n], t[..n]);
    }
  }

  /** `__bitmap_or`; the bitmaps may be the same memory. */
  method OrInto(dst: array<Word>, bitmap1: array<Word>, bitmap2: array<Word>, bits: nat)
    requires bits <= 64 * dst.Length && bits <= 64 * bitmap1.Length && bits <= 64 * bitmap2.Length
    modifies dst
    ensures Below(dst[..], bits) == Either(old(Below(bitmap1[..], bits)), old(Below(bitmap2[..], bits)))
    ensures dst[(bits + 63) / 64..] == old(dst[(bits + 63) / 64..])
  {
    ghost var a, b := bitmap1[..], bitmap2[..];
    var nr := (bits + 63) / 64;
    var k := 0;
    while k < nr
      invariant 0 <= k <= nr
      invariant forall j :: 0 <= j < k ==> dst[j] == Or(a[j], b[j])
      invariant forall j :: k <= j < dst.Length ==> dst[j] == old(dst[j])
      invariant forall j :: k <= j < nr ==> bitmap1[j] == a[j] && bitmap2[j] == b[j]
    {
      dst[k] := Or(bitmap1[k], bitmap2[k]);
      k := k + 1;
    }
    ghost var r, s, t := Below(dst[..], bits), Below(a, bits), Below(b, bits);
    forall i | 0 <= i < bits
      ensures r[i] == Either(s, t)[i]
    {
      assert dst[i / 64] == Or(a[i / 64], b[i / 64]);
    }
  }

  /** The bitmaps have a bit below `n` in common. */
  ghost predicate Meet(a: seq<Word>, b: seq<Word>, n: nat)
    requires n <= 64 * |a| && n <= 64 * |b|
  {
    exists i :: 0 <= i < n && Bit(a, i) && Bit(b, i)
  }

  lemma MeetMembers(a: seq<Word>, b: seq<Word>, n: nat)
    requires n <= 64 * |a| && n <= 64 * |b|
    ensures Meet(a, b, n) <==> Members(Below(a, n)) * Members(Below(b, n)) != {}
  {
    var s, t := Below(a, n), Below(b, n);
    if Meet(a, b, n) {
      var i :| 0 <= i < n && Bit(a, i) && Bit(b, i);
      assert s[i] && t[i] && i in Members(s) * Members(t);
    }
    if Members(s) * Members(t) != {} {
      var i :| i in Members(s) * Members(t);
      assert s[i] && t[i] && Bit(a, i) && Bit(b, i);
    }
  }

  /** A word of the result is nonzero exactly when the bitmaps meet in it. */
  lemma MeetMore(a: seq<Word>, b: seq<Word>, k: nat, m: nat, w: Word)
    requires k < |a| && k < |b| && m <= 64 && w == And(And(a[k], b[k]), LastMask(m))
    ensures Meet(a, b, 64 * k + m) <==> Meet(a, b, 64 * k) || !IsZero(w)
  {
    if !IsZero(w) {
      var j :| 0 <= j < 64 && w[j];
      InWord(64 * k, 64 * k + j);
      assert Bit(a, 64 * k + j) && Bit(b, 64 * k + j);
    }
    if Meet(a, b, 64 * k + m) {
      var i :| 0 <= i < 64 * k + m && Bit(a, i) && Bit(b, i);
      if i >= 64 * k {
        InWord(64 * k, i);
        assert w[i - 64 * k];
      }
    }
  }

  lemma WholeWord(w: Word)
    ensures And(w, LastMask(64)) == w
  {
  }

  /** The first `k` words are done. */
  ghost predicate AndDone(dst: seq<Word>, dst0: seq<Word>, a: seq<Word>, b: seq<Word>, k: nat)
    requires k <= |dst| == |dst0| && k <= |a| && k <= |b|
  {
    (forall j :: 0 <= j < k ==> dst[j] == And(a[j], b[j])) && forall j :: k <= j < |dst| ==> dst[j] == dst0[j]
  }

  lemma AndBits(dst: seq<Word>, dst0: seq<Word>, a: seq<Word>, b: seq<Word>, bits: nat)
    requires bits <= 64 * |dst| && |dst| == |dst0| && bits <= 64 * |a| && bits <= 64 * |b|
    requires forall j :: 0 <= j < bits / 64 ==> dst[j] == And(a[j], b[j])
    requires bits % 64 != 0 ==> dst[bits / 64] == And(And(a[bits / 64], b[bits / 64]), LastMask(bits % 64))
    ensures Below(dst, bits) == Both(Below(a, bits), Below(b, bits))
  {
    var r, s, t := Below(dst, bits), Below(a, bits), Below(b, bits);
    forall i | 0 <= i < bits
      ensures r[i] == Both(s, t)[i]
    {
      assert i / 64 < bits / 64 ==> dst[i / 64] == And(a[i / 64], b[i / 64]);
    }
  }

  /** `__bitmap_and`: the result says whether the bitmaps have a bit in common. */
  method AndInto(dst: array<Word>, bitmap1: array<Word>, bitmap2: array<Word>, bits: nat) returns (some: bool)
    requires bits <= 64 * dst.Length && bits <= 64 * bitmap1.Length && bits <= 64 * bitmap2.Length
    modifies dst
    ensures Below(dst[..], bits) == Both(old(Below(bitmap1[..], bits)), old(Below(bitmap2[..], bits)))
    ensures some <==> Members(old(Below(bitmap1[..], bits))) * Members(old(Below(bitmap2[..], bits))) != {}
    ensures dst[(bits + 63) / 64..] == old(dst[(bits + 63) / 64..])
  {
    ghost var dst0, a, b := dst[..], bitmap1[..], bitmap2[..];
    var lim := bits / 64;
    var k := 0;
    some := false;
    while k < lim
      invariant 0 <= k <= lim && AndDone(dst[..], dst0, a, b, k) && (some <==> Meet(a, b, 64 * k))
      invariant forall j :: k <= j < |a| ==> bitmap1[j] == a[j]
      invariant forall j :: k <= j < |b| ==> bitmap2[j] == b[j]
    {
      var w := And(bitmap1[k], bitmap2[k]);
      WholeWord(w);
      MeetMore(a, b, k, 64, w);
      dst[k] := w;
      some := some || !IsZero(w);
      k := k + 1;
    }
    if bits % 64 != 0 {
      var w := And(And(bitmap1[k], bitmap2[k]), LastMask(bits % 64));
      MeetMore(a, b, k, bits % 64, w);
      dst[k] := w;
      some := some || !IsZero(w);
    }
    MeetMembers(a, b, bits);
    AndBits(dst[..], dst0, a, b, bits);
  }
}
