/** Adding up the bytes of a number, by one multiplication or by shifts. */
module ByteSums {
  import opened Machine

  /** The number with the given bytes, the lowest first. */
  function Num(a: nat, b: nat, c: nat, d: nat, e: nat, f: nat, g: nat, h: nat): nat {
    a + 0x100 * b + 0x1_0000 * c + 0x100_0000 * d
    + 0x1_0000_0000 * e + 0x100_0000_0000 * f + 0x1_0000_0000_0000 * g + 0x100_0000_0000_0000 * h
  }

  /** The last steps, in unsigned arithmetic: a multiplication and a shift, or shifts and additions. */
  function MulTop32(r: nat): nat { r * 0x0101_0101 % TWO_32 / TWO_24 }

  function MulTop64(r: nat): nat { r * 0x0101_0101_0101_0101 % TWO_64 / TWO_56 }

  function AddShifted32(r: nat, shift: nat): nat
    requires shift > 0
  {
    (r + r / shift) % TWO_32
  }

  function AddShifted64(r: nat, shift: nat): nat
    requires shift > 0
  {
    (r + r / shift) % TWO_64
  }

  ghost predicate Small(a: nat, b: nat, c: nat, d: nat) { a <= 8 && b <= 8 && c <= 8 && d <= 8 }

  lemma Top32(x: nat, hi: nat, s: nat, lo: nat)
    requires x == TWO_32 * hi + TWO_24 * s + lo && s < 256 && lo < TWO_24
    ensures x % TWO_32 / TWO_24 == s
  {
    assert x % TWO_32 == TWO_24 * s + lo;
  }

  lemma Top64(x: nat, hi: nat, s: nat, lo: nat)
    requires x == TWO_64 * hi + TWO_56 * s + lo && s < 256 && lo < TWO_56
    ensures x % TWO_64 / TWO_56 == s
  {
    assert x % TWO_64 == TWO_56 * s + lo;
  }

  /** The multiplication gathers all bytes in the top one, and nothing carries into it. */
  lemma Multiply32(a: nat, b: nat, c: nat, d: nat)
    requires Small(a, b, c, d)
    ensures MulTop32(Num(a, b, c, d, 0, 0, 0, 0)) == a + b + c + d
  {
    var lo, hi := Num(a, a + b, a + b + c, 0, 0, 0, 0, 0), Num(b + c + d, c + d, d, 0, 0, 0, 0, 0);
    Top32(Num(a, b, c, d, 0, 0, 0, 0) * 0x0101_0101, hi, a + b + c + d, lo);
  }

  lemma Multiply64(a: nat, b: nat, c: nat, d: nat, e: nat, f: nat, g: nat, h: nat)
    requires Small(a, b, c, d) && Small(e, f, g, h)
    ensures MulTop64(Num(a, b, c, d, e, f, g, h)) == a + b + c + d + e + f + g + h
  {
    var s := a + b + c + d + e + f + g + h;
    var lo := Num(a, a + b, a + b + c, a + b + c + d, a + b + c + d + e, a + b + c + d + e + f,
                  a + b + c + d + e + f + g, 0);
    var hi := Num(s - a, c + d + e + f + g + h, d + e + f + g + h, e + f + g + h, f + g + h, g + h, h, 0);
    Top64(Num(a, b, c, d, e, f, g, h) * 0x0101_0101_0101_0101, hi, s, lo);
  }

  lemma Drop1(a: nat, b: nat, c: nat, d: nat, e: nat, f: nat, g: nat, h: nat)
    requires a < 256
    ensures Num(a, b, c, d, e, f, g, h) / 256 == Num(b, c, d, e, f, g, h, 0)
  {
  }

  lemma Drop2(a: nat, b: nat, c: nat, d: nat, e: nat, f: nat, g: nat, h: nat)
    requires a < 256 && b < 256
    ensures Num(a, b, c, d, e, f, g, h) / TWO_16 == Num(c, d, e, f, g, h, 0, 0)
  {
    assert a + 0x100 * b < TWO_16;
  }

  lemma Drop4(a: nat, b: nat, c: nat, d: nat, e: nat, f: nat, g: nat, h: nat)
    requires a < 256 && b < 256 && c < 256 && d < 256
    ensures Num(a, b, c, d, e, f, g, h) / TWO_32 == Num(e, f, g, h, 0, 0, 0, 0)
  {
    assert a + 0x100 * b + 0x1_0000 * c + 0x100_0000 * d < TWO_32;
  }

  lemma LowByte(a: nat, b: nat, c: nat, d: nat, e: nat, f: nat, g: nat, h: nat)
    requires a < 256
    ensures Num(a, b, c, d, e, f, g, h) % 256 == a
  {
  }

  lemma Fits32(a: nat, b: nat, c: nat, d: nat)
    requires a < 256 && b < 256 && c < 256 && d < 256
    ensures Num(a, b, c, d, 0, 0, 0, 0) < TWO_32
  {
  }

  lemma Fits64(a: nat, b: nat, c: nat, d: nat, e: nat, f: nat, g: nat, h: nat)
    requires a < 256 && b < 256 && c < 256 && d < 256 && e < 256 && f < 256 && g < 256 && h < 256
    ensures Num(a, b, c, d, e, f, g, h) < TWO_64
  {
  }

  lemma Shifted32(r: nat, shift: nat, q: nat, sum: nat)
    requires shift > 0 && r / shift == q && sum == r + q < TWO_32
    ensures AddShifted32(r, shift) == sum
  {
  }

  lemma Shifted64(r: nat, shift: nat, q: nat, sum: nat)
    requires shift > 0 && r / shift == q && sum == r + q < TWO_64
    ensures AddShifted64(r, shift) == sum
  {
  }

  lemma Add32(a: nat, b: nat, c: nat, d: nat)
    requires a + b < 256 && b + c < 256 && c + d < 256
    ensures AddShifted32(Num(a, b, c, d, 0, 0, 0, 0), 256) == Num(a + b, b + c, c + d, d, 0, 0, 0, 0)
  {
    Drop1(a, b, c, d, 0, 0, 0, 0);
    Fits32(a + b, b + c, c + d, d);
    Shifted32(Num(a, b, c, d, 0, 0, 0, 0), 256, Num(b, c, d, 0, 0, 0, 0, 0), Num(a + b, b + c, c + d, d, 0, 0, 0, 0));
  }

  lemma Add32Twice(a: nat, b: nat, c: nat, d: nat)
    requires a + c < 256 && b + d < 256
    ensures AddShifted32(Num(a, b, c, d, 0, 0, 0, 0), TWO_16) == Num(a + c, b + d, c, d, 0, 0, 0, 0)
  {
    Drop2(a, b, c, d, 0, 0, 0, 0);
    Fits32(a + c, b + d, c, d);
    Shifted32(Num(a, b, c, d, 0, 0, 0, 0), TWO_16, Num(c, d, 0, 0, 0, 0, 0, 0), Num(a + c, b + d, c, d, 0, 0, 0, 0));
  }

  lemma LastByte32(s: nat, a: nat, b: nat, c: nat, d: nat)
    requires s == Num(a, b, c, d, 0, 0, 0, 0) && a + c < 256 && b + d < 256 && c < 256 && d < 256
    ensures AddShifted32(s, TWO_16) % 256 == a + c
  {
    Add32Twice(a, b, c, d);
    LowByte(a + c, b + d, c, d, 0, 0, 0, 0);
  }

  /** The shifts gather them in the lowest byte. */
  lemma Shifts32(r: nat, a: nat, b: nat, c: nat, d: nat)
    requires r == Num(a, b, c, d, 0, 0, 0, 0) && Small(a, b, c, d)
    ensures AddShifted32(AddShifted32(r, 256), TWO_16) % 256 == a + b + c + d
  {
    Add32(a, b, c, d);
    LastByte32(AddShifted32(r, 256), a + b, b + c, c + d, d);
  }

  lemma Add64(a: nat, b: nat, c: nat, d: nat, e: nat, f: nat, g: nat, h: nat)
    requires a + b < 256 && b + c < 256 && c + d < 256 && d + e < 256 && e + f < 256 && f + g < 256 && g + h < 256
    ensures AddShifted64(Num(a, b, c, d, e, f, g, h), 256) == Num(a + b, b + c, c + d, d + e, e + f, f + g, g + h, h)
  {
    Drop1(a, b, c, d, e, f, g, h);
    Fits64(a + b, b + c, c + d, d + e, e + f, f + g, g + h, h);
    Shifted64(Num(a, b, c, d, e, f, g, h), 256, Num(b, c, d, e, f, g, h, 0),
      Num(a + b, b + c, c + d, d + e, e + f, f + g, g + h, h));
  }

  lemma Add64Twice(a: nat, b: nat, c: nat, d: nat, e: nat, f: nat, g: nat, h: nat)
    requires a + c < 256 && b + d < 256 && c + e < 256 && d + f < 256 && e + g < 256 && f + h < 256
    ensures AddShifted64(Num(a, b, c, d, e, f, g, h), TWO_16) == Num(a + c, b + d, c + e, d + f, e + g, f + h, g, h)
  {
    Drop2(a, b, c, d, e, f, g, h);
    Fits64(a + c, b + d, c + e, d + f, e + g, f + h, g, h);
    Shifted64(Num(a, b, c, d, e, f, g, h), TWO_16, Num(c, d, e, f, g, h, 0, 0),
      Num(a + c, b + d, c + e, d + f, e + g, f + h, g, h));
  }

  lemma Add64Thrice(a: nat, b: nat, c: nat, d: nat, e: nat, f: nat, g: nat, h: nat)
    requires a + e < 256 && b + f < 256 && c + g < 256 && d + h < 256
    ensures AddShifted64(Num(a, b, c, d, e, f, g, h), TWO_32) == Num(a + e, b + f, c + g, d + h, e, f, g, h)
  {
    Drop4(a, b, c, d, e, f, g, h);
    Fits64(a + e, b + f, c + g, d + h, e, f, g, h);
    Shifted64(Num(a, b, c, d, e, f, g, h), TWO_32, Num(e, f, g, h, 0, 0, 0, 0),
      Num(a + e, b + f, c + g, d + h, e, f, g, h));
  }

  lemma LastByte64(t: nat, a: nat, b: nat, c: nat, d: nat, e: nat, f: nat, g: nat, h: nat)
    requires t == Num(a, b, c, d, e, f, g, h) && a + e < 256 && b + f < 256 && c + g < 256 && d + h < 256
    ensures AddShifted64(t, TWO_32) % 256 == a + e
  {
    Add64Thrice(a, b, c, d, e, f, g, h);
    LowByte(a + e, b + f, c + g, d + h, e, f, g, h);
  }

  lemma LastTwo64(s: nat, a: nat, b: nat, c: nat, d: nat, e: nat, f: nat, g: nat, h: nat)
    requires s == Num(a, b, c, d, e, f, g, h)
    requires a <= 16 && b <= 16 && c <= 16 && d <= 16 && e <= 16 && f <= 16 && g <= 16 && h <= 16
    ensures AddShifted64(AddShifted64(s, TWO_16), TWO_32) % 256 == a + c + e + g
  {
    Add64Twice(a, b, c, d, e, f, g, h);
    LastByte64(AddShifted64(s, TWO_16), a + c, b + d, c + e, d + f, e + g, f + h, g, h);
  }

  lemma Shifts64(r: nat, a: nat, b: nat, c: nat, d: nat, e: nat, f: nat, g: nat, h: nat)
    requires r == Num(a, b, c, d, e, f, g, h) && Small(a, b, c, d) && Small(e, f, g, h)
    ensures AddShifted64(AddShifted64(AddShifted64(r, 256), TWO_16), TWO_32) % 256 == a + b + c + d + e + f + g + h
  {
    Add64(a, b, c, d, e, f, g, h);
    LastTwo64(AddShifted64(r, 256), a + b, b + c, c + d, d + e, e + f, f + g, g + h, h);
  }

  /** Both ways find the sum of four small bytes. */
  lemma Sum32(value: nat, count: nat, a: nat, b: nat, c: nat, d: nat)
    requires value == Num(a, b, c, d, 0, 0, 0, 0) && Small(a, b, c, d) && count == a + b + c + d
    ensures MulTop32(value) == count && AddShifted32(AddShifted32(value, 256), TWO_16) % 256 == count
  {
    Multiply32(a, b, c, d);
    Shifts32(value, a, b, c, d);
  }

  lemma Sum64(value: nat, count: nat, a: nat, b: nat, c: nat, d: nat, e: nat, f: nat, g: nat, h: nat)
    requires value == Num(a, b, c, d, e, f, g, h) && Small(a, b, c, d) && Small(e, f, g, h)
    requires count == a + b + c + d + e + f + g + h
    ensures MulTop64(value) == count
    ensures AddShifted64(AddShifted64(AddShifted64(value, 256), TWO_16), TWO_32) % 256 == count
  {
    Multiply64(a, b, c, d, e, f, g, h);
    Shifts64(value, a, b, c, d, e, f, g, h);
  }
}

/** Population count by adding up neighbouring fields of a word. */
module Hweight {
  import opened Machine
  import opened ByteSums

  // --- Counting bit by bit ----------------------------------------------------------------------

  /** The number of set bits. */
  function Count(bits: seq<bool>): nat {
    if bits == [] then 0 else Count(bits[..|bits| - 1]) + if bits[|bits| - 1] then 1 else 0
  }

  lemma {:induction false} CountConcat(a: seq<bool>, b: seq<bool>)
    ensures Count(a + b) == Count(a) + Count(b)
  {
    if b == [] {
      assert a + b == a;
    } else {
      var n := |b| - 1;
      CountConcat(a, b[..n]);
      assert (a + b)[..|a| + n] == a + b[..n];
    }
  }

  function Bits8(b: bv8): seq<bool> {
    [b & 1 == 1, b & 2 == 2, b & 4 == 4, b & 8 == 8, b & 16 == 16, b & 32 == 32, b & 64 == 64, b & 128 == 128]
  }

  /** The byte `j` of a word, the lowest first. */
  function Byte32(w: bv32, j: nat): bv8
    requires j < 4
  {
    match j
    case 0 => (w & 0xFF) as bv8
    case 1 => ((w >> 8) & 0xFF) as bv8
    case 2 => ((w >> 16) & 0xFF) as bv8
    case _ => ((w >> 24) & 0xFF) as bv8
  }

  function Byte64(w: bv64, j: nat): bv8
    requires j < 8
  {
    match j
    case 0 => (w & 0xFF) as bv8
    case 1 => ((w >> 8) & 0xFF) as bv8
    case 2 => ((w >> 16) & 0xFF) as bv8
    case 3 => ((w >> 24) & 0xFF) as bv8
    case 4 => ((w >> 32) & 0xFF) as bv8
    case 5 => ((w >> 40) & 0xFF) as bv8
    case 6 => ((w >> 48) & 0xFF) as bv8
    case _ => ((w >> 56) & 0xFF) as bv8
  }

  /** The bits of the first `n` bytes. */
  ghost function Bits32(w: bv32, n: nat): seq<bool>
    requires n <= 4
  {
    if n == 0 then [] else Bits32(w, n - 1) + Bits8(Byte32(w, n - 1))
  }

  ghost function Bits64(w: bv64, n: nat): seq<bool>
    requires n <= 8
  {
    if n == 0 then [] else Bits64(w, n - 1) + Bits8(Byte64(w, n - 1))
  }

  // --- One byte -------------------------------------------------------------------------------------

  /** `__sw_hweight8` */
  function Hweight8(w: bv8): bv8 {
    var a := w - ((w >> 1) & 0x55);
    var b := (a & 0x33) + ((a >> 2) & 0x33);
    (b + (b >> 4)) & 0x0F
  }

  ghost function One(b: bool): nat { if b then 1 else 0 }

  lemma CountFour(s: seq<bool>)
    requires |s| == 4
    ensures Count(s) == One(s[0]) + One(s[1]) + One(s[2]) + One(s[3])
  {
    var a, b, c := s[..3], s[..2], s[..1];
    assert a[..2] == b && b[..1] == c && c[..0] == [];
    assert Count(c) == One(s[0]) && Count(b) == Count(c) + One(s[1]) && Count(a) == Count(b) + One(s[2]);
  }

  lemma CountEight(s: seq<bool>)
    requires |s| == 8
    ensures Count(s) == One(s[0]) + One(s[1]) + One(s[2]) + One(s[3]) + One(s[4]) + One(s[5]) + One(s[6]) + One(s[7])
  {
    CountFour(s[..4]);
    CountFour(s[4..]);
    CountConcat(s[..4], s[4..]);
    assert s == s[..4] + s[4..];
  }

  lemma ByteValue(w: bv8)
    ensures Hweight8(w) as nat == One(w & 1 == 1) + One(w & 2 == 2) + One(w & 4 == 4) + One(w & 8 == 8)
                                  + One(w & 16 == 16) + One(w & 32 == 32) + One(w & 64 == 64) + One(w & 128 == 128)
  {
  }

  lemma Hweight8Counts(w: bv8)
    ensures Hweight8(w) as nat == Count(Bits8(w)) <= 8
  {
    ByteValue(w);
    CountEight(Bits8(w));
  }

  // --- Every byte by itself ----------------------------------------------------------------------------

  /** The steps shared by all forms. */
  function Lanes32(w: bv32): bv32 {
    var a := w - ((w >> 1) & 0x5555_5555);
    var b := (a & 0x3333_3333) + ((a >> 2) & 0x3333_3333);
    (b + (b >> 4)) & 0x0F0F_0F0F
  }

  function Lanes64(w: bv64): bv64 {
    var a := w - ((w >> 1) & 0x5555_5555_5555_5555);
    var b := (a & 0x3333_3333_3333_3333) + ((a >> 2) & 0x3333_3333_3333_3333);
    (b + (b >> 4)) & 0x0F0F_0F0F_0F0F_0F0F
  }

  // After them every byte holds its own weight.

  lemma Lanes32Bytes0(w: bv32)
    ensures (Lanes32(w) & 0xFF) as bv8 == Hweight8((w & 0xFF) as bv8)
    ensures ((Lanes32(w) >> 8) & 0xFF) as bv8 == Hweight8(((w >> 8) & 0xFF) as bv8)
  {
  }

  lemma Lanes32Bytes2(w: bv32)
    ensures ((Lanes32(w) >> 16) & 0xFF) as bv8 == Hweight8(((w >> 16) & 0xFF) as bv8)
    ensures ((Lanes32(w) >> 24) & 0xFF) as bv8 == Hweight8(((w >> 24) & 0xFF) as bv8)
  {
  }

  lemma Lanes64Bytes0(w: bv64)
    ensures (Lanes64(w) & 0xFF) as bv8 == Hweight8((w & 0xFF) as bv8)
    ensures ((Lanes64(w) >> 8) & 0xFF) as bv8 == Hweight8(((w >> 8) & 0xFF) as bv8)
  {
  }

  lemma Lanes64Bytes2(w: bv64)
    ensures ((Lanes64(w) >> 16) & 0xFF) as bv8 == Hweight8(((w >> 16) & 0xFF) as bv8)
    ensures ((Lanes64(w) >> 24) & 0xFF) as bv8 == Hweight8(((w >> 24) & 0xFF) as bv8)
  {
  }

  lemma Lanes64Bytes4(w: bv64)
    ensures ((Lanes64(w) >> 32) & 0xFF) as bv8 == Hweight8(((w >> 32) & 0xFF) as bv8)
    ensures ((Lanes64(w) >> 40) & 0xFF) as bv8 == Hweight8(((w >> 40) & 0xFF) as bv8)
  {
  }

  lemma Lanes64Bytes6(w: bv64)
    ensures ((Lanes64(w) >> 48) & 0xFF) as bv8 == Hweight8(((w >> 48) & 0xFF) as bv8)
    ensures ((Lanes64(w) >> 56) & 0xFF) as bv8 == Hweight8(((w >> 56) & 0xFF) as bv8)
  {
  }

  lemma LanesByte32(w: bv32, j: nat)
    requires j < 4
    ensures Byte32(Lanes32(w), j) == Hweight8(Byte32(w, j))
  {
    if j < 2 { Lanes32Bytes0(w); } else { Lanes32Bytes2(w); }
  }

  lemma LanesByte64(w: bv64, j: nat)
    requires j < 8
    ensures Byte64(Lanes64(w), j) == Hweight8(Byte64(w, j))
  {
    if j < 4 {
      if j < 2 { Lanes64Bytes0(w); } else { Lanes64Bytes2(w); }
    } else {
      if j < 6 { Lanes64Bytes4(w); } else { Lanes64Bytes6(w); }
    }
  }

  /** The weight of byte `j`, as the lanes hold it. */
  ghost function Weight32(w: bv32, j: nat): nat
    requires j < 4
  {
    Count(Bits8(Byte32(w, j)))
  }

  ghost function Weight64(w: bv64, j: nat): nat
    requires j < 8
  {
    Count(Bits8(Byte64(w, j)))
  }

  lemma Lane32(w: bv32, j: nat)
    requires j < 4
    ensures Byte32(Lanes32(w), j) as nat == Weight32(w, j) <= 8
  {
    LanesByte32(w, j);
    Hweight8Counts(Byte32(w, j));
  }

  lemma Lane64(w: bv64, j: nat)
    requires j < 8
    ensures Byte64(Lanes64(w), j) as nat == Weight64(w, j) <= 8
  {
    LanesByte64(w, j);
    Hweight8Counts(Byte64(w, j));
  }

  // --- Words as numbers ---------------------------------------------------------------------------------

  function Value32(w: bv32): nat {
    Num(Byte32(w, 0) as nat, Byte32(w, 1) as nat, Byte32(w, 2) as nat, Byte32(w, 3) as nat, 0, 0, 0, 0)
  }

  function Value64(w: bv64): nat {
    Num(Byte64(w, 0) as nat, Byte64(w, 1) as nat, Byte64(w, 2) as nat, Byte64(w, 3) as nat,
        Byte64(w, 4) as nat, Byte64(w, 5) as nat, Byte64(w, 6) as nat, Byte64(w, 7) as nat)
  }

  /** `__sw_hweight32`, with a multiplication and with shifts. */
  function Hweight32(w: bv32): nat { MulTop32(Value32(Lanes32(w))) }

  function Hweight32Shifts(w: bv32): nat { AddShifted32(AddShifted32(Value32(Lanes32(w)), 256), TWO_16) % 256 }

  /** `__sw_hweight64` */
  function Hweight64(w: bv64): nat { MulTop64(Value64(Lanes64(w))) }

  function Hweight64Shifts(w: bv64): nat {
    AddShifted64(AddShifted64(AddShifted64(Value64(Lanes64(w)), 256), TWO_16), TWO_32) % 256
  }

  // --- Both forms count the bits ----------------------------------------------------------------------

  lemma BitsStep32(w: bv32, n: nat)
    requires n < 4
    ensures Count(Bits32(w, n + 1)) == Count(Bits32(w, n)) + Weight32(w, n)
  {
    CountConcat(Bits32(w, n), Bits8(Byte32(w, n)));
  }

  lemma BitsStep64(w: bv64, n: nat)
    requires n < 8
    ensures Count(Bits64(w, n + 1)) == Count(Bits64(w, n)) + Weight64(w, n)
  {
    CountConcat(Bits64(w, n), Bits8(Byte64(w, n)));
  }

  lemma LanesValue32(w: bv32)
    ensures Small(Weight32(w, 0), Weight32(w, 1), Weight32(w, 2), Weight32(w, 3))
    ensures Value32(Lanes32(w)) == Num(Weight32(w, 0), Weight32(w, 1), Weight32(w, 2), Weight32(w, 3), 0, 0, 0, 0)
  {
    Lane32(w, 0); Lane32(w, 1); Lane32(w, 2); Lane32(w, 3);
  }

  lemma LanesValue64(w: bv64)
    ensures Small(Weight64(w, 0), Weight64(w, 1), Weight64(w, 2), Weight64(w, 3))
    ensures Small(Weight64(w, 4), Weight64(w, 5), Weight64(w, 6), Weight64(w, 7))
    ensures Value64(Lanes64(w)) == Num(Weight64(w, 0), Weight64(w, 1), Weight64(w, 2), Weight64(w, 3),
                                       Weight64(w, 4), Weight64(w, 5), Weight64(w, 6), Weight64(w, 7))
  {
    Lane64(w, 0); Lane64(w, 1); Lane64(w, 2); Lane64(w, 3); Lane64(w, 4); Lane64(w, 5); Lane64(w, 6); Lane64(w, 7);
  }

  lemma BitsSum32(w: bv32)
    ensures Count(Bits32(w, 4)) == Weight32(w, 0) + Weight32(w, 1) + Weight32(w, 2) + Weight32(w, 3)
  {
    BitsStep32(w, 0); BitsStep32(w, 1); BitsStep32(w, 2); BitsStep32(w, 3);
  }

  lemma BitsSum64(w: bv64)
    ensures Count(Bits64(w, 8)) == Weight64(w, 0) + Weight64(w, 1) + Weight64(w, 2) + Weight64(w, 3)
                                   + Weight64(w, 4) + Weight64(w, 5) + Weight64(w, 6) + Weight64(w, 7)
  {
    BitsStep64(w, 0); BitsStep64(w, 1); BitsStep64(w, 2); BitsStep64(w, 3);
    BitsStep64(w, 4); BitsStep64(w, 5); BitsStep64(w, 6); BitsStep64(w, 7);
  }

  /** Both forms of the 32-bit weight count the set bits of every word. */
  lemma Hweight32Counts(w: bv32)
    ensures Hweight32(w) == Hweight32Shifts(w) == Count(Bits32(w, 4))
  {
    LanesValue32(w);
    BitsSum32(w);
    Sum32(Value32(Lanes32(w)), Count(Bits32(w, 4)), Weight32(w, 0), Weight32(w, 1), Weight32(w, 2), Weight32(w, 3));
  }

  /** Both forms of the 64-bit weight count the set bits of every word. */
  lemma Hweight64Counts(w: bv64)
    ensures Hweight64(w) == Hweight64Shifts(w) == Count(Bits64(w, 8))
  {
    LanesValue64(w);
    BitsSum64(w);
    Sum64(Value64(Lanes64(w)), Count(Bits64(w, 8)), Weight64(w, 0), Weight64(w, 1), Weight64(w, 2), Weight64(w, 3),
          Weight64(w, 4), Weight64(w, 5), Weight64(w, 6), Weight64(w, 7));
  }

  // --- The 64-bit weight on a 32-bit machine ------------------------------------------------------------

  function Lo(w: bv64): bv32 { (w & 0xFFFF_FFFF) as bv32 }

  function Hi(w: bv64): bv32 { ((w >> 32) & 0xFFFF_FFFF) as bv32 }

  lemma LoBytes(w: bv64)
    ensures (Lo(w) & 0xFF) as bv8 == (w & 0xFF) as bv8
    ensures ((Lo(w) >> 8) & 0xFF) as bv8 == ((w >> 8) & 0xFF) as bv8
    ensures ((Lo(w) >> 16) & 0xFF) as bv8 == ((w >> 16) & 0xFF) as bv8
    ensures ((Lo(w) >> 24) & 0xFF) as bv8 == ((w >> 24) & 0xFF) as bv8
  {
  }

  lemma HiBytes(w: bv64)
    ensures (Hi(w) & 0xFF) as bv8 == ((w >> 32) & 0xFF) as bv8
    ensures ((Hi(w) >> 8) & 0xFF) as bv8 == ((w >> 40) & 0xFF) as bv8
    ensures ((Hi(w) >> 16) & 0xFF) as bv8 == ((w >> 48) & 0xFF) as bv8
    ensures ((Hi(w) >> 24) & 0xFF) as bv8 == ((w >> 56) & 0xFF) as bv8
  {
  }

  lemma HalfWeights(w: bv64, j: nat)
    requires j < 4
    ensures Weight32(Lo(w), j) == Weight64(w, j) && Weight32(Hi(w), j) == Weight64(w, j + 4)
  {
    LoBytes(w);
    HiBytes(w);
    assert Byte32(Lo(w), j) == Byte64(w, j) && Byte32(Hi(w), j) == Byte64(w, j + 4);
  }

  lemma LowHalf(w: bv64)
    ensures Count(Bits32(Lo(w), 4)) == Weight64(w, 0) + Weight64(w, 1) + Weight64(w, 2) + Weight64(w, 3)
  {
    BitsSum32(Lo(w));
    HalfWeights(w, 0); HalfWeights(w, 1); HalfWeights(w, 2); HalfWeights(w, 3);
  }

  lemma HighHalf(w: bv64)
    ensures Count(Bits32(Hi(w), 4)) == Weight64(w, 4) + Weight64(w, 5) + Weight64(w, 6) + Weight64(w, 7)
  {
    BitsSum32(Hi(w));
    HalfWeights(w, 0); HalfWeights(w, 1); HalfWeights(w, 2); HalfWeights(w, 3);
  }

  /** The two halves counted one by one. */
  lemma Hweight64InHalves(w: bv64)
    ensures Hweight32(Hi(w)) + Hweight32(Lo(w)) == Count(Bits64(w, 8))
  {
    Hweight32Counts(Lo(w));
    Hweight32Counts(Hi(w));
    LowHalf(w);
    HighHalf(w);
    BitsSum64(w);
  }

  // --- A word from its bits -----------------------------------------------------------------------------

  function PackByte(s: seq<bool>): bv8
    requires |s| == 8
  {
    (if s[0] then 1 else 0) | (if s[1] then 2 else 0) | (if s[2] then 4 else 0) | (if s[3] then 8 else 0)
    | (if s[4] then 16 else 0) | (if s[5] then 32 else 0) | (if s[6] then 64 else 0) | (if s[7] then 128 else 0)
  }

  lemma PackedByte(s: seq<bool>)
    requires |s| == 8
    ensures Bits8(PackByte(s)) == s
  {
  }

  function Join(a: bv8, b: bv8, c: bv8, d: bv8, e: bv8, f: bv8, g: bv8, h: bv8): bv64 {
    (a as bv64) | ((b as bv64) << 8) | ((c as bv64) << 16) | ((d as bv64) << 24)
    | ((e as bv64) << 32) | ((f as bv64) << 40) | ((g as bv64) << 48) | ((h as bv64) << 56)
  }

  lemma JoinedLow(a: bv8, b: bv8, c: bv8, d: bv8, e: bv8, f: bv8, g: bv8, h: bv8)
    ensures var w := Join(a, b, c, d, e, f, g, h);
      && (w & 0xFF) as bv8 == a && ((w >> 8) & 0xFF) as bv8 == b && ((w >> 16) & 0xFF) as bv8 == c
      && ((w >> 24) & 0xFF) as bv8 == d
  {
  }

  lemma JoinedHigh(a: bv8, b: bv8, c: bv8, d: bv8, e: bv8, f: bv8, g: bv8, h: bv8)
    ensures var w := Join(a, b, c, d, e, f, g, h);
      && ((w >> 32) & 0xFF) as bv8 == e && ((w >> 40) & 0xFF) as bv8 == f
      && ((w >> 48) & 0xFF) as bv8 == g && ((w >> 56) & 0xFF) as bv8 == h
  {
  }

  lemma JoinedByte(a: bv8, b: bv8, c: bv8, d: bv8, e: bv8, f: bv8, g: bv8, h: bv8, j: nat)
    requires j < 8
    ensures Byte64(Join(a, b, c, d, e, f, g, h), j) == [a, b, c, d, e, f, g, h][j]
  {
    if j < 4 { JoinedLow(a, b, c, d, e, f, g, h); } else { JoinedHigh(a, b, c, d, e, f, g, h); }
  }

  function JoinBytes(bs: seq<bv8>): bv64
    requires |bs| == 8
  {
    Join(bs[0], bs[1], bs[2], bs[3], bs[4], bs[5], bs[6], bs[7])
  }

  ghost function BitsOf(bs: seq<bv8>): seq<bool> {
    if bs == [] then [] else BitsOf(bs[..|bs| - 1]) + Bits8(bs[|bs| - 1])
  }

  lemma BitsMore(bs: seq<bv8>, b: bv8)
    ensures BitsOf(bs + [b]) == BitsOf(bs) + Bits8(b)
  {
    assert (bs + [b])[..|bs|] == bs;
  }

  lemma {:induction false} JoinedBits(w: bv64, bs: seq<bv8>, n: nat)
    requires |bs| == 8 && n <= 8 && forall j :: 0 <= j < 8 ==> Byte64(w, j) == bs[j]
    ensures Bits64(w, n) == BitsOf(bs[..n])
  {
    if n > 0 {
      JoinedBits(w, bs, n - 1);
      assert bs[..n][..n - 1] == bs[..n - 1];
    }
  }

  function PackBytes(s: seq<bool>): (bs: seq<bv8>)
    requires |s| == 64
    ensures |bs| == 8
  {
    seq(8, j requires 0 <= j < 8 => PackByte(s[8 * j..8 * j + 8]))
  }

  lemma {:induction false} PackedBits(bs: seq<bv8>, s: seq<bool>, n: nat)
    requires |s| == 64 && |bs| == 8 && n <= 8 && forall j :: 0 <= j < 8 ==> Bits8(bs[j]) == s[8 * j..8 * j + 8]
    ensures BitsOf(bs[..n]) == s[..8 * n]
  {
    if n > 0 {
      PackedBits(bs, s, n - 1);
      assert bs[..n] == bs[..n - 1] + [bs[n - 1]];
      BitsMore(bs[..n - 1], bs[n - 1]);
      assert s[..8 * n] == s[..8 * (n - 1)] + s[8 * (n - 1)..8 * n];
    }
  }

  /** The machine word with the given bits, the lowest first. */
  function Pack(s: seq<bool>): bv64
    requires |s| == 64
  {
    JoinBytes(PackBytes(s))
  }

  lemma JoinedBytes(bs: seq<bv8>)
    requires |bs| == 8
    ensures forall j :: 0 <= j < 8 ==> Byte64(JoinBytes(bs), j) == bs[j]
  {
    forall j | 0 <= j < 8
      ensures Byte64(JoinBytes(bs), j) == bs[j]
    {
      JoinedByte(bs[0], bs[1], bs[2], bs[3], bs[4], bs[5], bs[6], bs[7], j);
    }
  }

  lemma PackedBytes(s: seq<bool>)
    requires |s| == 64
    ensures BitsOf(PackBytes(s)) == s
  {
    var bs := PackBytes(s);
    forall j | 0 <= j < 8
      ensures Bits8(bs[j]) == s[8 * j..8 * j + 8]
    {
      PackedByte(s[8 * j..8 * j + 8]);
    }
    PackedBits(bs, s, 8);
    assert bs[..8] == bs && s[..64] == s;
  }

  lemma PackedWord(s: seq<bool>)
    requires |s| == 64
    ensures Bits64(Pack(s), 8) == s
  {
    JoinedBytes(PackBytes(s));
    JoinedBits(Pack(s), PackBytes(s), 8);
    PackedBytes(s);
    assert PackBytes(s)[..8] == PackBytes(s);
  }

  /** Counting a word's bits by arithmetic or one by one is the same. */
  lemma HweightOfBits(s: seq<bool>)
    requires |s| == 64
    ensures Hweight64(Pack(s)) == Count(s)
  {
    PackedWord(s);
    Hweight64Counts(Pack(s));
  }

  /** `hweight_long` */
  method HweightLong(s: seq<bool>) returns (n: nat)
    requires |s| == 64
    ensures n == Count(s)
  {
    HweightOfBits(s);
    n := Hweight64(Pack(s));
  }
}
