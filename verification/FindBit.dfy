/** Searching a bitmap word by word. */
module FindBit {

  /** `unsigned long`, as its 64 bits, the lowest first. */
  type Word = w: seq<bool> | |w| == 64 witness seq(64, _ => false)

  const ZERO: Word := seq(64, _ => false)

  predicate IsZero(w: seq<bool>) { forall i :: 0 <= i < |w| ==> !w[i] }

  function And(v: Word, w: Word): Word { seq(64, i requires 0 <= i < 64 => v[i] && w[i]) }

  function Or(v: Word, w: Word): Word { seq(64, i requires 0 <= i < 64 => v[i] || w[i]) }

  function Xor(v: Word, w: Word): Word { seq(64, i requires 0 <= i < 64 => v[i] != w[i]) }

  /** `BITMAP_FIRST_WORD_MASK`, `~0UL << k`, and `BITMAP_LAST_WORD_MASK`, `(1UL << k) - 1`. */
  function FirstMask(k: nat): Word { seq(64, i => i >= k) }

  function LastMask(k: nat): Word { seq(64, i => i < k) }

  function ShiftRight(w: Word, k: nat): Word
    requires k <= 64
  {
    w[k..] + seq(k, _ => false)
  }

  // --- The first bit of a word ------------------------------------------------------------------

  /** The lowest set bit of `w` is among the `n` bits from `num` on, which `word` starts with. */
  ghost predicate Narrowed(w: Word, word: Word, num: nat, n: nat) {
    && num + n <= 64 && word == ShiftRight(w, num)
    && (forall i :: 0 <= i < num ==> !w[i]) && exists i :: num <= i < num + n && w[i]
  }

  method HalveSearch(w: Word, word0: Word, num0: nat, n: nat) returns (word: Word, num: nat)
    requires n > 0 && Narrowed(w, word0, num0, 2 * n)
    ensures Narrowed(w, word, num, n)
  {
    word, num := word0, num0;
    assert forall i :: 0 <= i < n ==> word0[i] == w[num0 + i];
    if IsZero(word[..n]) {
      forall i | num0 <= i < num0 + n
        ensures !w[i]
      {
        assert word0[..n][i - num0] == w[i];
      }
      num, word := num + n, ShiftRight(word, n);
      assert word == ShiftRight(w, num);
    } else {
      var i :| 0 <= i < n && word0[..n][i];
      assert w[num0 + i];
    }
  }

  /** `__ffs` */
  method Ffs(w: Word) returns (num: nat)
    requires !IsZero(w)
    ensures num < 64 && w[num] && forall i :: 0 <= i < num ==> !w[i]
  {
    var word := w;
    num := 0;
    assert ShiftRight(w, 0) == w;
    word, num := HalveSearch(w, word, num, 32);
    word, num := HalveSearch(w, word, num, 16);
    word, num := HalveSearch(w, word, num, 8);
    word, num := HalveSearch(w, word, num, 4);
    word, num := HalveSearch(w, word, num, 2);
    word, num := HalveSearch(w, word, num, 1);
  }

  // --- The next bit of a bitmap -----------------------------------------------------------------------

  /** Bit `i` of the words, each combined with `invert`. */
  ghost predicate Matches(addr: seq<Word>, invert: Word, i: nat)
    requires i / 64 < |addr|
  {
    addr[i / 64][i % 64] != invert[i % 64]
  }

  /** `r` is the least match from `start` on, or `nbits` if there is none below. */
  ghost predicate IsNext(addr: seq<Word>, invert: Word, nbits: nat, start: nat, r: nat)
    requires nbits <= 64 * |addr|
  {
    && r <= nbits && (forall i :: start <= i < r ==> !Matches(addr, invert, i))
    && (r < nbits ==> start <= r && Matches(addr, invert, r))
  }

  lemma InWord(base: nat, i: nat)
    requires base % 64 == 0 && base <= i < base + 64
    ensures i / 64 == base / 64 && i % 64 == i - base
  {
  }

  /** A word without a match from `start` on. */
  lemma WordClear(addr: seq<Word>, invert: Word, base: nat, start: nat, tmp: Word)
    requires base % 64 == 0 && base / 64 < |addr| && IsZero(tmp)
    requires forall j :: 0 <= j < 64 && base + j >= start ==> tmp[j] == (addr[base / 64][j] != invert[j])
    ensures forall i :: start <= i && base <= i < base + 64 ==> i / 64 < |addr| && !Matches(addr, invert, i)
  {
    forall i | start <= i && base <= i < base + 64
      ensures i / 64 < |addr| && !Matches(addr, invert, i)
    {
      InWord(base, i);
      assert !tmp[i - base];
    }
  }

  lemma WordFound(addr: seq<Word>, invert: Word, base: nat, start: nat, tmp: Word, k: nat)
    requires base % 64 == 0 && base / 64 < |addr| && k < 64 && tmp[k] && forall j :: 0 <= j < k ==> !tmp[j]
    requires forall j :: 0 <= j < 64 && base + j >= start ==> tmp[j] == (addr[base / 64][j] != invert[j])
    requires forall j :: 0 <= j < 64 && base + j < start ==> !tmp[j]
    ensures base + k >= start && (base + k) / 64 < |addr| && Matches(addr, invert, base + k)
    ensures forall i :: start <= i && base <= i < base + k ==> i / 64 < |addr| && !Matches(addr, invert, i)
  {
    InWord(base, base + k);
    forall i | start <= i && base <= i < base + k
      ensures i / 64 < |addr| && !Matches(addr, invert, i)
    {
      InWord(base, i);
      assert !tmp[i - base];
    }
  }

  /** The word at `base` with the bits below `start` cleared. */
  ghost predicate Loaded(addr: seq<Word>, invert: Word, base: nat, start: nat, tmp: Word)
    requires base / 64 < |addr|
  {
    && (forall j :: 0 <= j < 64 && base + j >= start ==> tmp[j] == (addr[base / 64][j] != invert[j]))
    && (forall j :: 0 <= j < 64 && base + j < start ==> !tmp[j])
  }

  /** `_find_next_bit` */
  method FindNext(addr: seq<Word>, nbits: nat, start: nat, invert: Word) returns (r: nat)
    requires nbits <= 64 * |addr|
    ensures IsNext(addr, invert, nbits, start, r)
  {
    if nbits == 0 || start >= nbits { return nbits; }
    var tmp := And(Xor(addr[start / 64], invert), FirstMask(start % 64));
    var base := start / 64 * 64;
    while IsZero(tmp)
      invariant base % 64 == 0 && base < nbits && start < base + 64 && Loaded(addr, invert, base, start, tmp)
      invariant forall i :: start <= i < base ==> !Matches(addr, invert, i)
      decreases nbits - base
    {
      WordClear(addr, invert, base, start, tmp);
      base := base + 64;
      if base >= nbits { return nbits; }
      tmp := Xor(addr[base / 64], invert);
    }
    var k := Ffs(tmp);
    WordFound(addr, invert, base, start, tmp, k);
    r := if base + k < nbits then base + k else nbits;
  }

  /** `find_next_bit` */
  method FindNextBit(addr: seq<Word>, size: nat, offset: nat) returns (r: nat)
    requires size <= 64 * |addr|
    ensures IsNext(addr, ZERO, size, offset, r)
  {
    r := FindNext(addr, size, offset, ZERO);
  }

  /** `find_first_bit` */
  method FindFirstBit(addr: seq<Word>, size: nat) returns (r: nat)
    requires size <= 64 * |addr|
    ensures IsNext(addr, ZERO, size, 0, r)
  {
    var idx := 0;
    while idx * 64 < size
      invariant idx * 64 < size + 64 && forall i :: 0 <= i < idx * 64 && i < size ==> !Matches(addr, ZERO, i)
    {
      if !IsZero(addr[idx]) {
        var k := Ffs(addr[idx]);
        WordFound(addr, ZERO, idx * 64, 0, addr[idx], k);
        return if idx * 64 + k < size then idx * 64 + k else size;
      }
      WordClear(addr, ZERO, idx * 64, 0, addr[idx]);
      idx := idx + 1;
    }
    r := size;
  }
}
