/** The Internet checksum by 64-bit words with an end-around carry, against the plain sum of
    16-bit words of sections 1 and 2 of RFC 1071. */
module Checksum {
  import opened Machine

  // --- The plain sum -------------------------------------------------------------------------

  ghost function Pair(lo: nat, hi: nat): nat { lo + 256 * hi }

  /** The sum of the little-endian 16-bit words, an odd last byte being padded with zero. */
  ghost function Sum16(s: seq<Byte>): nat {
    if s == [] then 0 else if |s| == 1 then s[0] else Pair(s[0], s[1]) + Sum16(s[2..])
  }

  ghost predicate AllZero(s: seq<Byte>) { forall i :: 0 <= i < |s| ==> s[i] == 0 }

  lemma {:induction false} Sum16Zero(s: seq<Byte>)
    ensures Sum16(s) == 0 <==> AllZero(s)
  {
    if |s| >= 2 {
      Sum16Zero(s[2..]);
      assert AllZero(s) <==> s[0] == 0 && s[1] == 0 && AllZero(s[2..]) by {
        if s[0] == 0 && s[1] == 0 && AllZero(s[2..]) {
          forall i | 0 <= i < |s|
            ensures s[i] == 0
          {
            if i >= 2 { assert s[2..][i - 2] == 0; }
          }
        }
      }
    }
  }

  lemma {:induction false} Sum16Concat(s: seq<Byte>, t: seq<Byte>)
    requires |s| % 2 == 0
    ensures Sum16(s + t) == Sum16(s) + Sum16(t)
  {
    if s == [] {
      assert s + t == t;
    } else {
      Sum16Concat(s[2..], t);
      assert (s + t)[2..] == s[2..] + t;
    }
  }

  // --- Congruence modulo 65535 -----------------------------------------------------------------

  /** The remainder modulo 65535, by casting it out. */
  ghost function Residue(n: nat): nat { if n < 0xFFFF then n else Residue(n - 0xFFFF) }

  lemma {:induction false} ResidueIsMod(n: nat)
    ensures Residue(n) == n % 0xFFFF
  {
    if n >= 0xFFFF { ResidueIsMod(n - 0xFFFF); }
  }

  /** `v` stands for the exact sum `e`: congruent to it, and zero only with it. */
  ghost predicate Tracks(v: nat, e: nat) { Residue(v) == Residue(e) && (v == 0 <==> e == 0) }

  lemma TracksMod(v: nat, e: nat)
    ensures Tracks(v, e) <==> (v - e) % 0xFFFF == 0 && (v == 0 <==> e == 0)
  {
    ResidueIsMod(v);
    ResidueIsMod(e);
  }

  lemma {:induction false} CastOut(n: nat, k: nat)
    ensures Residue(n + 0xFFFF * k) == Residue(n)
    decreases k
  {
    if k > 0 {
      CastOut(n, k - 1);
      assert n + 0xFFFF * k - 0xFFFF == n + 0xFFFF * (k - 1);
    }
  }

  lemma {:induction false} Parts(n: nat) returns (k: nat)
    ensures n == Residue(n) + 0xFFFF * k
  {
    if n < 0xFFFF {
      k := 0;
    } else {
      k := Parts(n - 0xFFFF);
      k := k + 1;
    }
  }

  lemma ResidueAdd(v: nat, w: nat)
    ensures Residue(v + w) == Residue(Residue(v) + Residue(w))
  {
    var k := Parts(v);
    var l := Parts(w);
    CastOut(Residue(v) + Residue(w), k + l);
    assert v + w == Residue(v) + Residue(w) + 0xFFFF * (k + l);
  }

  lemma TracksAdd(v: nat, e: nat, w: nat, f: nat)
    requires Tracks(v, e) && Tracks(w, f)
    ensures Tracks(v + w, e + f)
  {
    ResidueAdd(v, w);
    ResidueAdd(e, f);
  }

  lemma TracksBoth(v: nat, e: nat, f: nat)
    requires Tracks(v, e) && Tracks(e, f)
    ensures Tracks(v, f)
  {
  }

  /** Folding the high part of a word onto the low part. */
  lemma Fold(hi: nat, lo: nat)
    ensures Tracks(hi + lo, hi * TWO_16 + lo)
    ensures Tracks(hi + lo, hi * TWO_32 + lo)
    ensures Tracks(hi + lo, hi * TWO_64 + lo)
  {
    CastOut(hi + lo, hi);
    CastOut(hi + lo, 0x1_0001 * hi);
    CastOut(hi + lo, 0x1_0001_0001_0001 * hi);
  }

  // --- Words in memory -----------------------------------------------------------------------------

  function Little(s: seq<Byte>): nat { if s == [] then 0 else s[0] + 256 * Little(s[1..]) }

  lemma {:induction false} LittleTracks(s: seq<Byte>)
    ensures Tracks(Little(s), Sum16(s))
  {
    if |s| >= 2 {
      LittleTracks(s[2..]);
      assert s[1..][1..] == s[2..];
      var l: int, m: int, a: int, b: int := Little(s[2..]), Sum16(s[2..]), s[0], s[1];
      assert Little(s) == a + 256 * b + 65536 * l && Sum16(s) == a + 256 * b + m;
      TracksMod(l, m);
      HalfFurther(a + 256 * b, l, m);
    }
    TracksMod(Little(s), Sum16(s));
  }

  lemma HalfFurther(x: int, l: int, m: int)
    requires (l - m) % 0xFFFF == 0
    ensures (x + 65536 * l - (x + m)) % 0xFFFF == 0
  {
    var q := (l - m) / 0xFFFF;
    assert x + 65536 * l - (x + m) == 0xFFFF * (l + q);
  }

  // --- Machine additions -----------------------------------------------------------------------------

  /** `add32_with_carry` */
  function Add32(a: nat, b: nat): (r: nat)
    requires a < TWO_32 && b < TWO_32
    ensures r < TWO_32
  {
    (((a + b) % TWO_32) + (a + b) / TWO_32) % TWO_32
  }

  lemma Add32Tracks(a: nat, b: nat, e: nat)
    requires a < TWO_32 && b < TWO_32 && Tracks(a + b, e)
    ensures Tracks(Add32(a, b), e)
  {
    var sum := a + b;
    assert Add32(a, b) == sum / TWO_32 + sum % TWO_32 && sum == sum / TWO_32 * TWO_32 + sum % TWO_32;
    Fold(sum / TWO_32, sum % TWO_32);
    TracksBoth(Add32(a, b), sum, e);
  }

  /** Folding a 64-bit word to 32 bits. */
  lemma Fold64Tracks(v: nat, e: nat)
    requires v < TWO_64 && Tracks(v, e)
    ensures Tracks(Add32(v / TWO_32, v % TWO_32), e)
  {
    Fold(v / TWO_32, v % TWO_32);
    Add32Tracks(v / TWO_32, v % TWO_32, e);
  }

  /** `from32to16` */
  function From32To16(a: nat): (b: nat)
    requires a < TWO_32
    ensures b < TWO_16
  {
    var sum := a / TWO_16 + a % TWO_16;
    (sum % TWO_16 + sum / TWO_16) % TWO_16
  }

  lemma From32To16Tracks(a: nat, e: nat)
    requires a < TWO_32 && Tracks(a, e)
    ensures Tracks(From32To16(a), e)
  {
    var sum := a / TWO_16 + a % TWO_16;
    FoldOnce(a, e);
    FoldOnce(sum, e);
  }

  lemma FoldOnce(a: nat, e: nat)
    requires Tracks(a, e)
    ensures Tracks(a / TWO_16 + a % TWO_16, e)
  {
    var hi, lo := a / TWO_16, a % TWO_16;
    assert a == hi * TWO_16 + lo;
    Fold(hi, lo);
    TracksBoth(hi + lo, a, e);
  }

  // --- The sum as RFC 1071 computes it -------------------------------------------------------------

  /** 16-bit addition with end-around carry. */
  ghost function Add16(a: nat, b: nat): nat { (a + b) % TWO_16 + (a + b) / TWO_16 }

  /** The 16-bit one's complement sum, word by word. */
  ghost function OnesSum(s: seq<Byte>): nat {
    if s == [] then 0 else if |s| == 1 then s[0] else Add16(Pair(s[0], s[1]), OnesSum(s[2..]))
  }

  lemma {:induction false} OnesSumTracks(s: seq<Byte>)
    ensures OnesSum(s) < TWO_16 && Tracks(OnesSum(s), Sum16(s))
  {
    if |s| >= 2 {
      OnesSumTracks(s[2..]);
      var w, r := Pair(s[0], s[1]), OnesSum(s[2..]);
      TracksAdd(w, w, r, Sum16(s[2..]));
      Fold((w + r) / TWO_16, (w + r) % TWO_16);
      TracksBoth(Add16(w, r), w + r, Sum16(s));
    }
  }

  lemma Unique16(a: nat, b: nat, e: nat)
    requires a < TWO_16 && b < TWO_16 && Tracks(a, e) && Tracks(b, e)
    ensures a == b
  {
    ResidueIsMod(a);
    ResidueIsMod(b);
  }

  function Swap(r: nat): nat
    requires r < TWO_16
  {
    r / 256 % 256 + r % 256 * 256
  }

  /** Swapping the bytes multiplies by 256. */
  lemma SwapTracks(r: nat, e: nat)
    requires r < TWO_16 && Tracks(r, e)
    ensures Tracks(Swap(r), 256 * e)
  {
    var h, l := r / 256, r % 256;
    TracksMod(r, e);
    Multiples(-h, r - e);
    assert Swap(r) == h + 256 * l && r == 256 * h + l;
    TracksMod(Swap(r), 256 * e);
  }

  lemma Multiples(k: int, q: int)
    requires q % 0xFFFF == 0
    ensures (0xFFFF * k + 256 * q) % 0xFFFF == 0
  {
    assert 0xFFFF * k + 256 * q == 0xFFFF * (k + 256 * (q / 0xFFFF));
  }

  /** Started one byte off, the sum is multiplied by 256. */
  lemma {:induction false} OneOff(b: Byte, s: seq<Byte>)
    ensures Tracks(256 * (256 * b + Sum16(s)), Sum16([b] + s))
  {
    OneOffCongruent(b, s);
    TracksMod(256 * (256 * b + Sum16(s)), Sum16([b] + s));
    Sum16Zero([b] + s);
    Sum16Zero(s);
    assert AllZero([b] + s) <==> b == 0 && AllZero(s) by {
      if AllZero([b] + s) {
        assert ([b] + s)[0] == 0;
        forall i | 0 <= i < |s|
          ensures s[i] == 0
        {
          assert ([b] + s)[i + 1] == 0;
        }
      }
    }
  }

  lemma {:induction false} OneOffCongruent(b: Byte, s: seq<Byte>)
    ensures (256 * (256 * b + Sum16(s)) - Sum16([b] + s)) % 0xFFFF == 0
    decreases |s|
  {
    var t := [b] + s;
    if s == [] {
    } else {
      OneOffCongruent(s[0], s[1..]);
      assert [s[0]] + s[1..] == s && t[2..] == s[1..];
      var x: int, y: int, m: int := b, s[0], Sum16(s[1..]);
      assert Sum16(t) == x + 256 * y + m;
      OneFurther(x, y, m, Sum16(s));
    }
  }

  lemma OneFurther(x: int, y: int, m: int, n: int)
    requires (256 * (256 * y + m) - n) % 0xFFFF == 0
    ensures (256 * (256 * x + n) - (x + 256 * y + m)) % 0xFFFF == 0
  {
    var q := 256 * (256 * y + m) - n;
    Multiples(x + 256 * y + m, -q);
    assert 256 * (256 * x + n) - (x + 256 * y + m) == 0xFFFF * (x + 256 * y + m) + 256 * -q;
  }

  // --- Taking words from the buffer ------------------------------------------------------------------

  ghost function Pow256(n: nat): nat { if n == 0 then 1 else 256 * Pow256(n - 1) }

  lemma {:induction false} LittleBound(s: seq<Byte>)
    ensures Little(s) < Pow256(|s|)
  {
    if s != [] { LittleBound(s[1..]); }
  }

  lemma Powers()
    ensures Pow256(1) == 256 && Pow256(2) == TWO_16 && Pow256(4) == TWO_32 && Pow256(8) == TWO_64
  {
    assert Pow256(3) == 256 * Pow256(2) && Pow256(5) == 256 * Pow256(4);
    assert Pow256(6) == 256 * Pow256(5) && Pow256(7) == 256 * Pow256(6);
  }

  /** The little-endian word of `n` bytes at `p`. */
  function Word(buff: seq<Byte>, p: nat, n: nat): nat
    requires p + n <= |buff|
  {
    Little(buff[p..p + n])
  }

  lemma WordBound(buff: seq<Byte>, p: nat, n: nat)
    requires p + n <= |buff|
    ensures n == 2 ==> Word(buff, p, n) < TWO_16
    ensures n == 4 ==> Word(buff, p, n) < TWO_32
    ensures n == 8 ==> Word(buff, p, n) < TWO_64
  {
    LittleBound(buff[p..p + n]);
    Powers();
  }

  /** The exact sum of the bytes from `s` to `p`, on top of `base`. */
  ghost function Upto(base: nat, buff: seq<Byte>, s: nat, p: nat): nat
    requires s <= p <= |buff|
  {
    base + Sum16(buff[s..p])
  }

  lemma Take(base: nat, buff: seq<Byte>, s: nat, k: nat, p: nat, n: nat, v: nat)
    requires p == s + 2 * k && p + n <= |buff| && Tracks(v, Upto(base, buff, s, p))
    ensures Tracks(v + Word(buff, p, n), Upto(base, buff, s, p + n))
  {
    LittleTracks(buff[p..p + n]);
    Sum16Concat(buff[s..p], buff[p..p + n]);
    assert buff[s..p + n] == buff[s..p] + buff[p..p + n];
    TracksAdd(v, Upto(base, buff, s, p), Word(buff, p, n), Sum16(buff[p..p + n]));
  }

  /** A register and the carry flag; with the carry set the register is not all ones. */
  ghost predicate Fits(r: nat, c: nat) { r < TWO_64 && c <= 1 && (c == 1 ==> r <= TWO_64 - 2) }

  /** `adcq`: adds the word at `p` and the carry. */
  method Adcq(res: nat, c: nat, buff: seq<Byte>, p: nat, ghost base: nat, ghost s: nat,
              ghost k: nat) returns (res': nat, c': nat)
    requires p == s + 2 * k && p + 8 <= |buff| && Fits(res, c) && Tracks(res + c, Upto(base, buff, s, p))
    ensures Fits(res', c') && Tracks(res' + c', Upto(base, buff, s, p + 8))
  {
    var sum := res + Word(buff, p, 8) + c;
    res', c' := sum % TWO_64, sum / TWO_64;
    WordBound(buff, p, 8);
    Take(base, buff, s, k, p, 8, res + c);
    Fold(c', res');
  }

  /** `adcq` of zero: the carry is never lost. */
  method AdcZero(res: nat, c: nat) returns (res': nat)
    requires Fits(res, c)
    ensures res' == res + c && res' < TWO_64
  {
    res' := (res + c) % TWO_64;
  }

  /** Eight words with one carry chain. */
  method AddBlock(res: nat, buff: seq<Byte>, p: nat, ghost base: nat, ghost s: nat, ghost k: nat) returns (res': nat)
    requires p == s + 2 * k && p + 64 <= |buff| && res < TWO_64 && Tracks(res, Upto(base, buff, s, p))
    ensures res' < TWO_64 && Tracks(res', Upto(base, buff, s, p + 64))
  {
    var c;
    res', c := Adcq(res, 0, buff, p, base, s, k);
    res', c := Adcq(res', c, buff, p + 8, base, s, k + 4);
    res', c := Adcq(res', c, buff, p + 16, base, s, k + 8);
    res', c := Adcq(res', c, buff, p + 24, base, s, k + 12);
    res', c := Adcq(res', c, buff, p + 32, base, s, k + 16);
    res', c := Adcq(res', c, buff, p + 40, base, s, k + 20);
    res', c := Adcq(res', c, buff, p + 48, base, s, k + 24);
    res', c := Adcq(res', c, buff, p + 56, base, s, k + 28);
    res' := AdcZero(res', c);
  }

  /** The two loops over 64-bit words, `count` of them. */
  method AddWords(result: nat, buff: seq<Byte>, p0: nat, count: nat, ghost base: nat, ghost s: nat,
                  ghost k: nat) returns (res: nat, p: nat)
    requires p0 == s + 2 * k && p0 + 8 * count <= |buff| && result < TWO_64 && Tracks(result, Upto(base, buff, s, p0))
    ensures p == p0 + 8 * count && res < TWO_64 && Tracks(res, Upto(base, buff, s, p))
  {
    res, p := result, p0;
    var count64 := count / 8;
    while count64 != 0
      invariant p == p0 + 64 * (count / 8 - count64) && 0 <= count64 <= count / 8
      invariant res < TWO_64 && Tracks(res, Upto(base, buff, s, p))
    {
      res := AddBlock(res, buff, p, base, s, k + 32 * (count / 8 - count64));
      p := p + 64;
      count64 := count64 - 1;
    }
    var left := count % 8;
    while left != 0
      invariant p == p0 + 8 * (count - left) && 0 <= left <= count
      invariant res < TWO_64 && Tracks(res, Upto(base, buff, s, p))
    {
      var c;
      res, c := Adcq(res, 0, buff, p, base, s, k + 4 * (count - left));
      res := AdcZero(res, c);
      left := left - 1;
      p := p + 8;
    }
  }

  /** Adds the word of `n` bytes at `p` to a sum that has room for it. */
  method AddWord(result: nat, buff: seq<Byte>, p: nat, n: nat, ghost base: nat, ghost s: nat,
                 ghost k: nat) returns (res: nat)
    requires p == s + 2 * k && p + n <= |buff| && (n == 1 || n == 2 || n == 4)
    requires Tracks(result, Upto(base, buff, s, p))
    ensures Tracks(res, Upto(base, buff, s, p + n))
    ensures res < result + (if n == 4 then TWO_32 else TWO_16)
  {
    Take(base, buff, s, k, p, n, result);
    LittleBound(buff[p..p + n]);
    Powers();
    res := result + Word(buff, p, n);
  }

  lemma Eighths(len: nat)
    ensures len == 8 * (len / 4 / 2) + 4 * (len / 4 % 2) + len % 4
  {
  }

  lemma FourLess(len: nat)
    requires len >= 4
    ensures (len - 4) / 4 == len / 4 - 1
  {
  }

  /** The part of `do_csum` for at least four bytes, from an address that is a multiple of
      four or two past one. */
  method AddLongs(result: nat, buff: seq<Byte>, addr: nat, p0: nat, ghost base: nat, ghost s: nat,
                  ghost k: nat) returns (res: nat, p: nat)
    requires p0 == s + 2 * k && p0 + 4 <= |buff| && result < TWO_32 && Tracks(result, Upto(base, buff, s, p0))
    ensures p == p0 + 4 * ((|buff| - p0) / 4) && res < 2 * TWO_32 && Tracks(res, Upto(base, buff, s, p))
  {
    res, p := result, p0;
    ghost var j := k;
    var len := |buff| - p;
    var count := len / 4;
    if (addr + p) / 4 % 2 == 1 {
      res := AddWord(res, buff, p, 4, base, s, j);
      FourLess(len);
      count, len, p := count - 1, len - 4, p + 4;
      j := j + 2;
    }
    res, p := AddPairs(res, buff, p, len, base, s, j);
  }

  /** Whole 64-bit words, folded to 32 bits, and a 32-bit word if one is left. */
  method AddPairs(result: nat, buff: seq<Byte>, p0: nat, len: nat, ghost base: nat, ghost s: nat,
                  ghost k: nat) returns (res: nat, p: nat)
    requires p0 == s + 2 * k && p0 + len == |buff| && result < 2 * TWO_32 && Tracks(result, Upto(base, buff, s, p0))
    ensures p == p0 + 4 * (len / 4) && res < 2 * TWO_32 && Tracks(res, Upto(base, buff, s, p))
  {
    Eighths(len);
    var count := len / 4 / 2;
    res, p := AddWords(result, buff, p0, count, base, s, k);
    Fold64Tracks(res, Upto(base, buff, s, p));
    res := Add32(res / TWO_32, res % TWO_32);
    if len / 4 % 2 == 1 {
      res := AddWord(res, buff, p, 4, base, s, k + 4 * count);
      p := p + 4;
    }
  }

  lemma Bits(len: nat)
    ensures len % 4 == 2 * (len / 2 % 2) + len % 2
  {
  }

  /** The last bytes, fewer than four. */
  method AddTail(result: nat, buff: seq<Byte>, p0: nat, len: nat, ghost base: nat, ghost s: nat,
                 ghost k: nat) returns (res: nat)
    requires p0 == s + 2 * k && p0 + len % 4 == |buff|
    requires result < 2 * TWO_32 && Tracks(result, Upto(base, buff, s, p0))
    ensures res < 4 * TWO_32 && Tracks(res, Upto(base, buff, s, |buff|))
  {
    Bits(len);
    res := result;
    var p := p0;
    ghost var j := k;
    if len / 2 % 2 == 1 {
      res := AddWord(res, buff, p, 2, base, s, j);
      p, j := p + 2, j + 1;
    }
    if len % 2 == 1 {
      res := AddWord(res, buff, p, 1, base, s, j);
      p := p + 1;
    }
    assert p == |buff|;
  }

  lemma Quarter(len: nat)
    ensures len / 2 / 2 == len / 4 && len == 4 * (len / 4) + len % 4
  {
  }

  /** The sum of the buffer from the even address `addr + s`, before the last folding. */
  method AddEven(result: nat, buff: seq<Byte>, addr: nat, s: nat, ghost base: nat) returns (res: nat)
    requires s <= |buff| && result < TWO_16 && Tracks(result, base)
    ensures res < 4 * TWO_32 && Tracks(res, Upto(base, buff, s, |buff|))
  {
    assert buff[s..s] == [];
    var p, len := s, |buff| - s;
    ghost var k := 0;
    res := result;
    var count := len / 2;
    if count != 0 {
      if (addr + p) / 2 % 2 == 1 {
        res := AddWord(res, buff, p, 2, base, s, k);
        count, len, p, k := count - 1, len - 2, p + 2, 1;
      }
      count := count / 2;
      Quarter(len);
      if count != 0 {
        res, p := AddLongs(res, buff, addr, p, base, s, k);
        k := k + 2 * (len / 4);
      }
    }
    res := AddTail(res, buff, p, len, base, s, k);
  }

  lemma Meaning(r: nat, s: seq<Byte>)
    requires r < TWO_32 && Tracks(r, Sum16(s))
    ensures r % 0xFFFF == Sum16(s) % 0xFFFF && (r == 0 <==> AllZero(s)) && From32To16(r) == OnesSum(s)
  {
    ResidueIsMod(r);
    ResidueIsMod(Sum16(s));
    Sum16Zero(s);
    From32To16Tracks(r, Sum16(s));
    OnesSumTracks(s);
    Unique16(From32To16(r), OnesSum(s), Sum16(s));
  }

  /** `do_csum`: for every length and every alignment, congruent to the plain sum, zero
      exactly when all bytes are, and folding to the one's complement sum. */
  method DoCsum(buff: seq<Byte>, addr: nat) returns (result: nat)
    requires |buff| < TWO_32
    ensures result < TWO_32 && Tracks(result, Sum16(buff))
    ensures result % 0xFFFF == Sum16(buff) % 0xFFFF && (result == 0 <==> AllZero(buff))
    ensures From32To16(result) == OnesSum(buff)
  {
    result := DoSum(buff, addr);
    Meaning(result, buff);
  }

  method DoSum(buff: seq<Byte>, addr: nat) returns (result: nat)
    requires |buff| < TWO_32
    ensures result < TWO_32 && Tracks(result, Sum16(buff))
  {
    if |buff| == 0 { return 0; }
    var odd := addr % 2 == 1;
    result := 0;
    var p := 0;
    if odd {
      var first: nat := buff[0];
      result, p := 256 * first, 1;
    }
    ghost var base := result;
    result := AddEven(result, buff, addr, p, base);
    ghost var e := Upto(base, buff, p, |buff|);
    Fold64Tracks(result, e);
    result := Add32(result / TWO_32, result % TWO_32);
    if odd {
      From32To16Tracks(result, e);
      result := From32To16(result);
      SwapTracks(result, e);
      result := Swap(result);
      OneOff(buff[0], buff[1..]);
      assert [buff[0]] + buff[1..] == buff && buff[1..|buff|] == buff[1..];
      TracksBoth(result, 256 * e, Sum16(buff));
    } else {
      assert buff[0..|buff|] == buff;
    }
  }

  // --- Partial sums ---------------------------------------------------------------------------------

  /** `csum_partial` */
  method CsumPartial(buff: seq<Byte>, addr: nat, sum: nat) returns (r: nat)
    requires |buff| < TWO_32 && sum < TWO_32
    ensures r < TWO_32 && Tracks(r, Sum16(buff) + sum)
  {
    var c := DoCsum(buff, addr);
    TracksAdd(c, Sum16(buff), sum, sum);
    Add32Tracks(c, sum, Sum16(buff) + sum);
    r := Add32(c, sum);
  }

  /** Two sums that stand for the same exact sum fold to the same 16 bits. */
  lemma SameFold(a: nat, b: nat, e: nat)
    requires a < TWO_32 && b < TWO_32 && Tracks(a, e) && Tracks(b, e)
    ensures From32To16(a) == From32To16(b)
  {
    From32To16Tracks(a, e);
    From32To16Tracks(b, e);
    Unique16(From32To16(a), From32To16(b), e);
  }

  /** A buffer in two parts, the first of even length, folds to the same checksum as in one
      part, wherever the parts lie. */
  method CsumInParts(a: seq<Byte>, addrA: nat, b: seq<Byte>, addrB: nat, addr: nat, sum: nat) returns (parts: nat,
                     whole: nat)
    requires |a| % 2 == 0 && |a| + |b| < TWO_32 && sum < TWO_32
    ensures parts < TWO_32 && whole < TWO_32 && From32To16(parts) == From32To16(whole)
  {
    parts := CsumPartial(a, addrA, sum);
    ghost var first := parts;
    parts := CsumPartial(b, addrB, parts);
    whole := CsumPartial(a + b, addr, sum);
    Sum16Concat(a, b);
    TracksAdd(Sum16(b), Sum16(b), first, Sum16(a) + sum);
    TracksBoth(parts, Sum16(b) + first, Sum16(b) + (Sum16(a) + sum));
    SameFold(parts, whole, Sum16(a + b) + sum);
  }
}
