/** Printing a bitmap as a list of ranges. */
module BitmapText {
  import opened FindBit
  import opened Bitmap

  /** The bits from `lo` to `hi`. */
  datatype Range = Range(lo: nat, hi: nat)

  // --- Numbers in decimal -------------------------------------------------------------------------

  function Digit(d: nat): char
    requires d < 10
  {
    "0123456789"[d]
  }

  predicate IsDigit(c: char) { '0' <= c <= '9' }

  /** `%d` */
  function Decimal(n: nat): (s: string)
    ensures |s| > 0 && forall i :: 0 <= i < |s| ==> IsDigit(s[i])
  {
    if n < 10 then [Digit(n)] else Decimal(n / 10) + [Digit(n % 10)]
  }

  function Number(s: string): nat
    requires forall i :: 0 <= i < |s| ==> IsDigit(s[i])
  {
    if s == [] then 0 else 10 * Number(s[..|s| - 1]) + DigitValue(s[|s| - 1])
  }

  function DigitValue(c: char): nat
    requires IsDigit(c)
  {
    c as nat - '0' as nat
  }

  lemma ValueOfDigit(d: nat)
    requires d < 10
    ensures IsDigit(Digit(d)) && DigitValue(Digit(d)) == d
  {
  }

  lemma {:induction false} NumberOfDecimal(n: nat)
    ensures Number(Decimal(n)) == n
  {
    var s := Decimal(n);
    ValueOfDigit(n % 10);
    if n >= 10 {
      NumberOfDecimal(n / 10);
      assert s[..|s| - 1] == Decimal(n / 10);
    } else {
      assert s[..0] == [];
    }
  }

  // --- Lists of ranges --------------------------------------------------------------------------------

  function RangeText(r: Range): string { if r.lo < r.hi then Decimal(r.lo) + ("-" + Decimal(r.hi)) else Decimal(r.lo) }

  /** The ranges separated by commas. */
  function Text(rs: seq<Range>): string { if rs == [] then "" else RangeText(rs[0]) + Rest(rs[1..]) }

  function Rest(rs: seq<Range>): string { if rs == [] then "" else "," + (RangeText(rs[0]) + Rest(rs[1..])) }

  lemma {:induction false} RestMore(rs: seq<Range>, r: Range)
    ensures Rest(rs + [r]) == Rest(rs) + ("," + RangeText(r))
  {
    if rs == [] {
      assert rs + [r] == [r] && [r][1..] == [];
    } else {
      RestMore(rs[1..], r);
      assert (rs + [r])[1..] == rs[1..] + [r];
      Regroup(",", RangeText(rs[0]), Rest(rs[1..]), "," + RangeText(r));
    }
  }

  lemma Regroup3(a: string, b: string, c: string, t: string)
    ensures (a + (b + c)) + t == a + (b + (c + t))
  {
  }

  lemma Regroup(a: string, b: string, c: string, d: string)
    ensures a + (b + (c + d)) == (a + (b + c)) + d
    ensures b + (c + d) == (b + c) + d
  {
  }

  lemma TextMore(rs: seq<Range>, r: Range)
    ensures Text(rs + [r]) == if rs == [] then RangeText(r) else Text(rs) + ("," + RangeText(r))
  {
    if rs == [] {
      assert rs + [r] == [r] && [r][1..] == [];
    } else {
      RestMore(rs[1..], r);
      assert (rs + [r])[1..] == rs[1..] + [r];
      Regroup("", RangeText(rs[0]), Rest(rs[1..]), "," + RangeText(r));
    }
  }

  // --- Reading it back ------------------------------------------------------------------------------------

  /** How many digits `s` starts with. */
  function DigitsAt(s: string): (n: nat)
    ensures n <= |s| && (forall i :: 0 <= i < n ==> IsDigit(s[i])) && (n < |s| ==> !IsDigit(s[n]))
  {
    if s == [] || !IsDigit(s[0]) then 0 else 1 + DigitsAt(s[1..])
  }

  datatype Parsed = Bad | Good(rs: seq<Range>)

  /** A number, or two with a dash between them, and after a comma more of the same. */
  function Parse(s: string): Parsed
    decreases |s|, 2
  {
    if s == "" then Good([])
    else
      var n := DigitsAt(s);
      if n == 0 then Bad else AfterLow(Number(s[..n]), s[n..])
  }

  function AfterLow(lo: nat, t: string): Parsed
    decreases |t|, 1
  {
    if t != "" && t[0] == '-' then
      var u := t[1..];
      var m := DigitsAt(u);
      if m == 0 then Bad else More(Range(lo, Number(u[..m])), u[m..])
    else More(Range(lo, lo), t)
  }

  function More(r: Range, t: string): Parsed
    decreases |t|, 0
  {
    if t == "" then Good([r])
    else if t[0] != ',' || |t| == 1 then Bad
    else match Parse(t[1..])
      case Bad => Bad
      case Good(rs) => Good([r] + rs)
  }

  lemma {:induction false} DigitsOf(s: string, t: string)
    requires (forall i :: 0 <= i < |s| ==> IsDigit(s[i])) && (t == "" || !IsDigit(t[0]))
    ensures DigitsAt(s + t) == |s|
  {
    if s == [] {
      assert s + t == t;
    } else {
      DigitsOf(s[1..], t);
      assert (s + t)[1..] == s[1..] + t;
    }
  }

  ghost predicate Ends(t: string) { t == "" || t[0] == ',' }

  lemma ParseLow(lo: nat, t: string)
    requires t == "" || !IsDigit(t[0])
    ensures Parse(Decimal(lo) + t) == AfterLow(lo, t)
  {
    var d := Decimal(lo);
    DigitsOf(d, t);
    NumberOfDecimal(lo);
    assert (d + t)[..|d|] == d && (d + t)[|d|..] == t;
  }

  lemma AfterPair(lo: nat, hi: nat, t: string)
    requires Ends(t)
    ensures AfterLow(lo, "-" + (Decimal(hi) + t)) == More(Range(lo, hi), t)
  {
    var e := Decimal(hi);
    var u := e + t;
    assert ("-" + u)[1..] == u;
    DigitsOf(e, t);
    NumberOfDecimal(hi);
    assert u[..|e|] == e && u[|e|..] == t;
  }

  lemma ParsePair(lo: nat, hi: nat, t: string)
    requires Ends(t)
    ensures Parse((Decimal(lo) + ("-" + Decimal(hi))) + t) == More(Range(lo, hi), t)
  {
    Regroup3(Decimal(lo), "-", Decimal(hi), t);
    ParseLow(lo, "-" + (Decimal(hi) + t));
    AfterPair(lo, hi, t);
  }

  lemma ParseRange(r: Range, t: string)
    requires r.lo <= r.hi && Ends(t)
    ensures Parse(RangeText(r) + t) == More(r, t)
  {
    if r.lo < r.hi { ParsePair(r.lo, r.hi, t); } else { ParseLow(r.lo, t); }
  }

  lemma TextNonempty(rs: seq<Range>)
    requires rs != []
    ensures Text(rs) != ""
  {
  }

  lemma ParseText(rs: seq<Range>)
    requires rs != [] && rs[0].lo <= rs[0].hi
    ensures Parse(Text(rs)) == More(rs[0], Rest(rs[1..]))
  {
    ParseRange(rs[0], Rest(rs[1..]));
  }

  lemma MoreText(r: Range, t: string, p: Parsed)
    requires t != "" && p == Parse(t)
    ensures More(r, "," + t) == if p.Bad? then Bad else Good([r] + p.rs)
  {
    assert ("," + t)[1..] == t;
  }

  lemma {:induction false} MoreRanges(r: Range, rs: seq<Range>)
    requires forall k :: 0 <= k < |rs| ==> rs[k].lo <= rs[k].hi
    ensures More(r, Rest(rs)) == Good([r] + rs)
    decreases |rs|
  {
    if rs == [] {
      assert [r] + rs == [r];
    } else {
      MoreRanges(rs[0], rs[1..]);
      assert [rs[0]] + rs[1..] == rs;
      ParseText(rs);
      TextNonempty(rs);
      MoreText(r, Text(rs), Good(rs));
    }
  }

  /** Reading the full text gives back the ranges. */
  lemma RoundTrip(rs: seq<Range>)
    requires forall k :: 0 <= k < |rs| ==> rs[k].lo <= rs[k].hi
    ensures Parse(Text(rs)) == Good(rs)
  {
    if rs != [] {
      MoreRanges(rs[0], rs[1..]);
      assert [rs[0]] + rs[1..] == rs;
      ParseText(rs);
    }
  }

  // --- Runs of set bits -----------------------------------------------------------------------------------

  ghost predicate AllSet(words: seq<Word>, lo: nat, hi: nat)
    requires hi < 64 * |words|
  {
    forall i :: lo <= i <= hi ==> Bit(words, i)
  }

  /** `rs` are the maximal runs of set bits below `n`, in increasing order. */
  ghost predicate IsRuns(words: seq<Word>, n: nat, rs: seq<Range>)
    requires n <= 64 * |words|
  {
    && (forall k :: 0 <= k < |rs| ==> rs[k].lo <= rs[k].hi < n && AllSet(words, rs[k].lo, rs[k].hi))
    && (forall k :: 0 <= k < |rs| - 1 ==> rs[k].hi + 1 < rs[k + 1].lo)
    && (forall i :: 0 <= i < n && Bit(words, i) ==> Named(rs, i))
  }

  /** The bits that a list of ranges names. */
  ghost predicate Named(rs: seq<Range>, i: nat) {
    exists k :: 0 <= k < |rs| && rs[k].lo <= i <= rs[k].hi
  }

  /** The text names exactly the set bits. */
  lemma TextNamesBits(words: seq<Word>, n: nat, rs: seq<Range>)
    requires n <= 64 * |words| && IsRuns(words, n, rs)
    ensures Parse(Text(rs)) == Good(rs) && forall i :: 0 <= i < n ==> (Named(rs, i) <==> Bit(words, i))
  {
    RoundTrip(rs);
    forall i | 0 <= i < n && Named(rs, i)
      ensures Bit(words, i)
    {
      var k :| 0 <= k < |rs| && rs[k].lo <= i <= rs[k].hi;
      assert AllSet(words, rs[k].lo, rs[k].hi);
    }
  }

  // --- Printing -----------------------------------------------------------------------------------------------

  /** The first `n` characters. */
  function Cut(s: string, n: nat): string { if |s| <= n then s else s[..n] }

  lemma CutMore(full: string, text: string, n: nat)
    ensures Cut(full, n) + Cut(text, n - |Cut(full, n)|) == Cut(full + text, n)
  {
  }

  /** `scnprintf`: as much of `text` as fits, with room for the terminator. */
  function Scnprintf(out: string, size: nat, text: string): (r: string)
    requires |out| < size
    ensures |r| < size
  {
    out + Cut(text, size - |out| - 1)
  }

  lemma ScnprintfCut(full: string, size: nat, text: string)
    requires size > 0
    ensures |Cut(full, size - 1)| < size && Scnprintf(Cut(full, size - 1), size, text) == Cut(full + text, size - 1)
  {
    CutMore(full, text, size - 1);
  }

  /** The range after what has been printed before. */
  method PrintNumbers(out: string, size: nat, r: Range, ghost full: string) returns (out': string)
    requires size > 0 && out == Cut(full, size - 1)
    ensures out' == Cut(full + RangeText(r), size - 1)
  {
    ScnprintfCut(full, size, Decimal(r.lo));
    out' := Scnprintf(out, size, Decimal(r.lo));
    if r.lo < r.hi {
      ghost var more := "-" + Decimal(r.hi);
      ScnprintfCut(full + Decimal(r.lo), size, more);
      out' := Scnprintf(out', size, "-" + Decimal(r.hi));
      assert full + Decimal(r.lo) + more == full + RangeText(r);
    }
  }

  method PrintNext(out: string, size: nat, r: Range, ghost full: string) returns (out': string)
    requires size > 0 && out == Cut(full, size - 1)
    ensures out' == Cut(full + ("," + RangeText(r)), size - 1)
  {
    ScnprintfCut(full, size, ",");
    out' := Scnprintf(out, size, ",");
    out' := PrintNumbers(out', size, r, full + ",");
    assert full + "," + RangeText(r) == full + ("," + RangeText(r));
  }

  method PrintRange(out: string, size: nat, first: bool, r: Range, ghost rs: seq<Range>) returns (out': string)
    requires size > 0 && out == Cut(Text(rs), size - 1) && (first <==> rs == [])
    ensures out' == Cut(Text(rs + [r]), size - 1)
  {
    TextMore(rs, r);
    if first {
      out' := PrintNumbers(out, size, r, "");
      assert "" + RangeText(r) == RangeText(r);
    } else {
      out' := PrintNext(out, size, r, Text(rs));
    }
  }

  lemma NextBit(words: seq<Word>, n: nat, start: nat, r: nat)
    requires n <= 64 * |words| && IsNext(words, ZERO, n, start, r)
    ensures forall i :: start <= i < r ==> !Bit(words, i)
    ensures r < n ==> start <= r && Bit(words, r)
  {
    forall i | start <= i < r
      ensures !Bit(words, i)
    {
      assert !Matches(words, ZERO, i);
    }
  }

  /** The runs below `bot`, all of them ending before it. */
  ghost predicate IsRunsUpTo(words: seq<Word>, n: nat, rs: seq<Range>, bot: nat)
    requires n <= 64 * |words|
  {
    && bot <= n && (forall k :: 0 <= k < |rs| ==> rs[k].lo <= rs[k].hi < n && AllSet(words, rs[k].lo, rs[k].hi))
    && (forall k :: 0 <= k < |rs| - 1 ==> rs[k].hi + 1 < rs[k + 1].lo)
    && (rs != [] && bot < n ==> rs[|rs| - 1].hi + 1 < bot)
    && (forall i :: 0 <= i < bot && Bit(words, i) ==> Named(rs, i))
  }

  lemma NamedMore(rs: seq<Range>, r: Range, i: nat)
    ensures Named(rs + [r], i) <==> Named(rs, i) || r.lo <= i <= r.hi
  {
    if Named(rs, i) {
      var k :| 0 <= k < |rs| && rs[k].lo <= i <= rs[k].hi;
      assert (rs + [r])[k] == rs[k];
    }
    if r.lo <= i <= r.hi { assert (rs + [r])[|rs|] == r; }
  }

  /** The run from `bot` to `top` is finished; the next one starts at `cur`. */
  lemma RunEnds(words: seq<Word>, n: nat, rs: seq<Range>, bot: nat, top: nat, cur: nat)
    requires n <= 64 * |words| && IsRunsUpTo(words, n, rs, bot) && bot <= top < n && AllSet(words, bot, top)
    requires top < cur <= n && (cur < n ==> cur > top + 1) && forall i :: top < i < cur ==> !Bit(words, i)
    ensures IsRunsUpTo(words, n, rs + [Range(bot, top)], cur)
  {
    var r, rs' := Range(bot, top), rs + [Range(bot, top)];
    forall i | 0 <= i < cur && Bit(words, i)
      ensures Named(rs', i)
    {
      NamedMore(rs, r, i);
    }
  }

  lemma RunStarts(words: seq<Word>, bot: nat)
    requires bot < 64 * |words| && Bit(words, bot)
    ensures AllSet(words, bot, bot)
  {
  }

  lemma RunGrows(words: seq<Word>, bot: nat, top: nat)
    requires top + 1 < 64 * |words| && AllSet(words, bot, top) && Bit(words, top + 1)
    ensures AllSet(words, bot, top + 1)
  {
  }

  /** The runs before `rbot` are printed, and the run from `rbot` on has been followed to `cur`. */
  ghost predicate Walked(words: seq<Word>, n: nat, rs: seq<Range>, rbot: nat, cur: nat)
    requires n <= 64 * |words|
  {
    && rbot <= cur <= n && IsRunsUpTo(words, n, rs, rbot)
    && (if cur < n then AllSet(words, rbot, cur) else rbot == n)
  }

  lemma WalkStarts(words: seq<Word>, n: nat, cur: nat)
    requires n <= 64 * |words| && IsNext(words, ZERO, n, 0, cur)
    ensures Walked(words, n, [], cur, cur)
  {
    NextBit(words, n, 0, cur);
    if cur < n { RunStarts(words, cur); }
  }

  lemma WalkOn(words: seq<Word>, n: nat, rs: seq<Range>, rbot: nat, rtop: nat, cur: nat)
    requires n <= 64 * |words| && Walked(words, n, rs, rbot, rtop) && rtop < n && IsNext(words, ZERO, n, rtop + 1, cur)
    ensures rtop < cur
    ensures if cur < n && cur <= rtop + 1 then Walked(words, n, rs, rbot, cur)
      else Walked(words, n, rs + [Range(rbot, rtop)], cur, cur)
  {
    NextBit(words, n, rtop + 1, cur);
    if cur < n && cur <= rtop + 1 {
      RunGrows(words, rbot, rtop);
    } else {
      RunEnds(words, n, rs, rbot, rtop, cur);
      if cur < n { RunStarts(words, cur); }
    }
  }

  /** `bitmap_scnprintf`: the maximal runs, cut to what fits the buffer. */
  method BitmapScnprintf(bitmap: seq<Word>, nbits: nat, size: nat) returns (out: string, ghost rs: seq<Range>)
    requires nbits <= 64 * |bitmap| && (size == 0 ==> forall i :: 0 <= i < nbits ==> !Bit(bitmap, i))
    ensures IsRuns(bitmap, nbits, rs) && out == Cut(Text(rs), if size == 0 then 0 else size - 1)
  {
    out, rs := "", [];
    var first := true;
    var cur: nat := FindFirstBit(bitmap, nbits);
    var rbot: nat := cur;
    WalkStarts(bitmap, nbits, cur);
    assert cur < nbits ==> Bit(bitmap, cur) && size > 0;
    while cur < nbits
      invariant cur < nbits ==> size > 0
      invariant Walked(bitmap, nbits, rs, rbot, cur) && (first <==> rs == [])
      invariant out == Cut(Text(rs), if size == 0 then 0 else size - 1)
      decreases nbits - cur
    {
      var rtop := cur;
      cur := FindNextBit(bitmap, nbits, cur + 1);
      WalkOn(bitmap, nbits, rs, rbot, rtop, cur);
      if cur < nbits && cur <= rtop + 1 { continue; }
      out := PrintRange(out, size, first, Range(rbot, rtop), rs);
      first := false;
      rs := rs + [Range(rbot, rtop)];
      rbot := cur;
    }
  }
}
