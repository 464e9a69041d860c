/** x86 code: what the fields of an instruction are, by the instruction format of section 2.1 of
    volume 2 of the Intel SDM, and what it takes for them to be there. */
module InsnCode {
  import opened Machine

  const MAX_INSN_SIZE: nat := 15

  datatype Flag = Modrm | Force64 | SecondImm | Moffset | VexOk | VexOnly | EvexOnly

  /** An instruction attribute; that of a bad instruction is all zero. */
  datatype Attr = Bad | Attr(prefix: nat, escape: nat, group: nat, imm: nat, flags: set<Flag>) {
    function Prefix(): nat { if Bad? then 0 else prefix }
    function Escape(): nat { if Bad? then 0 else escape }
    function Group(): nat { if Bad? then 0 else group }
    function Imm(): nat { if Bad? then 0 else imm }
    predicate Has(f: Flag) { Attr? && f in flags }
  }

  /** The generated attribute tables, as the functions that search them. */
  datatype Tables = Tables(
    opcode: Byte -> Attr, escaped: (Byte, nat, Attr) -> Attr,
    grouped: (Byte, nat, Attr) -> Attr, avx: (Byte, nat, nat) -> Attr)

  predicate IsLegacy(a: Attr) { 1 <= a.Prefix() <= 11 }
  predicate IsOperandSize(a: Attr) { a.Prefix() == 1 }
  predicate IsAddressSize(a: Attr) { a.Prefix() == 11 }
  predicate IsRex(a: Attr) { a.Prefix() == 12 }
  predicate IsVex(a: Attr) { 13 <= a.Prefix() <= 15 }
  predicate IsVex3(a: Attr) { a.Prefix() == 14 }
  predicate IsEvex(a: Attr) { a.Prefix() == 15 }

  function LastPrefixOf(a: Attr): nat { if a.Prefix() > 3 then 0 else a.Prefix() }

  function Mod(modrm: Byte): nat { modrm / 64 }
  function Rm(modrm: Byte): nat { modrm % 8 }
  function Base(sib: Byte): nat { sib % 8 }
  predicate RexW(b: Byte) { b / 8 % 2 == 1 }
  predicate VexW(b: Byte) { b / 128 == 1 }

  /** `struct insn_field`: its bytes, whether it has been decoded, and how long it is. */
  datatype Field = Field(bytes: seq<Byte>, got: bool, nbytes: nat)

  /** A field that has as many bytes as it says, and one with four bytes of storage. */
  type Part = f: Field | |f.bytes| == f.nbytes witness Field([], false, 0)
  type Slots = f: Field | |f.bytes| == 4 witness Field([0, 0, 0, 0], false, 0)

  const NONE: Part := Field([], false, 0)
  const FOUR: Slots := Field([0, 0, 0, 0], false, 0)

  // --- Prefix bytes -----------------------------------------------------------------------------

  /** The nonzero entries of `slots` are the bytes of `s`. */
  ghost predicate SameSet(slots: seq<Byte>, s: seq<Byte>) {
    && (forall i :: 0 <= i < |slots| && slots[i] != 0 ==> slots[i] in s)
    && (forall b :: b in s ==> b in slots)
  }

  /** The prefixes so far: `nb` distinct ones in the first slots, nothing in the others. */
  ghost predicate Collected(slots: seq<Byte>, nb: nat, s: seq<Byte>) {
    && |slots| == 4 && nb <= 4 && SameSet(slots, s) && 0 !in s
    && (forall i :: 0 <= i < nb ==> slots[i] != 0) && (forall i :: nb <= i < 4 ==> slots[i] == 0)
    && (forall i, j :: 0 <= i < j < nb ==> slots[i] != slots[j])
  }

  lemma CollectNew(slots: seq<Byte>, nb: nat, s: seq<Byte>, b: Byte)
    requires Collected(slots, nb, s) && nb < 4 && b != 0 && forall i :: 0 <= i < nb ==> slots[i] != b
    ensures Collected(slots[nb := b], nb + 1, s + [b])
  {
    var slots' := slots[nb := b];
    forall x | x in s + [b]
      ensures x in slots'
    {
      if x in s {
        assert x in slots;
        var i :| 0 <= i < 4 && slots[i] == x;
        assert slots'[i] == x;
      } else {
        assert slots'[nb] == b;
      }
    }
  }

  lemma CollectSame(slots: seq<Byte>, nb: nat, s: seq<Byte>, b: Byte)
    requires Collected(slots, nb, s) && b in slots && b != 0
    ensures Collected(slots, nb, s + [b])
  {
  }

  /** The slots with `b` listed once. */
  function Listed(slots: seq<Byte>, nb: nat, b: Byte): seq<Byte>
    requires nb <= |slots|
  {
    if b in slots[..nb] || nb == |slots| then slots else slots[nb := b]
  }

  lemma Collect(slots: seq<Byte>, nb: nat, s: seq<Byte>, b: Byte)
    requires Collected(slots, nb, s) && b != 0 && nb <= 4
    ensures b in slots[..nb] ==> Collected(Listed(slots, nb, b), nb, s + [b])
    ensures b !in slots[..nb] && nb < 4 ==> Collected(Listed(slots, nb, b), nb + 1, s + [b])
  {
    if b in slots[..nb] {
      CollectSame(slots, nb, s, b);
    } else if nb < 4 {
      forall i | 0 <= i < nb
        ensures slots[i] != b
      {
        assert slots[..nb][i] == slots[i];
      }
      CollectNew(slots, nb, s, b);
    }
  }

  /** The step after the scan: the last prefix `lb` moves to the last slot. */
  function PutLast(slots: seq<Byte>, nb: nat, lb: Byte): (r: seq<Byte>)
    requires |slots| == 4 && nb <= 4
    ensures |r| == 4
  {
    if lb == 0 || lb == slots[3] then slots
    else
      var swapped :=
        if slots[3] == 0 then slots
        else seq(4, i requires 0 <= i < 4 => if i < nb && slots[i] == lb then slots[3] else slots[i]);
      swapped[3 := lb]
  }

  /** Whatever was swapped or repeated, the slots hold the prefixes, the last one in the last slot. */
  lemma PutLastKeeps(slots: seq<Byte>, nb: nat, s: seq<Byte>)
    requires Collected(slots, nb, s) && s != []
    ensures SameSet(PutLast(slots, nb, s[|s| - 1]), s) && PutLast(slots, nb, s[|s| - 1])[3] == s[|s| - 1]
  {
    var lb := s[|s| - 1];
    var r := PutLast(slots, nb, lb);
    assert lb in s && lb in slots;
    forall b | b in s
      ensures b in r
    {
      assert b in slots;
      var i :| 0 <= i < 4 && slots[i] == b;
      if b == lb {
        assert r[3] == lb;
      } else if i < 3 {
        assert r[i] == b;
      } else if lb != slots[3] {
        var j :| 0 <= j < 4 && slots[j] == lb;
        assert r[j] == b;
      }
    }
    forall i | 0 <= i < |r| && r[i] != 0
      ensures r[i] in s
    {
      assert r[i] == lb || r[i] in slots;
      if r[i] != lb {
        var j :| 0 <= j < 4 && slots[j] == r[i];
      }
    }
  }

  /** The slots hold the legacy prefixes `s`, the last one in the last slot. */
  ghost predicate Held(slots: seq<Byte>, s: seq<Byte>, tables: Tables) {
    && |slots| == 4 && SameSet(slots, s) && (s != [] ==> slots[3] == s[|s| - 1])
    && forall i :: 0 <= i < |s| ==> IsLegacy(tables.opcode(s[i]))
  }

  lemma ScanHeld(slots: seq<Byte>, nb: nat, s: seq<Byte>, lb: Byte, tables: Tables)
    requires Collected(slots, nb, s) && lb == (if s == [] then 0 else s[|s| - 1])
    requires forall i :: 0 <= i < |s| ==> IsLegacy(tables.opcode(s[i]))
    ensures Held(PutLast(slots, nb, lb), s, tables)
  {
    if s != [] { PutLastKeeps(slots, nb, s); }
  }

  /** The prefix list tells whether `b` has been seen. */
  lemma Seen(slots: seq<Byte>, nb: nat, s: seq<Byte>, b: Byte)
    requires Collected(slots, nb, s) && b != 0 && nb <= 4
    ensures b in slots[..nb] <==> b in s
  {
    if b in s {
      var i :| 0 <= i < 4 && slots[i] == b;
      assert slots[..nb][i] == b;
    }
  }

  /** The code to decode: its bytes, the mode and the tables. */
  datatype Code = Code(buf: seq<Byte>, x86_64: bool, tables: Tables)

  /** The decoder looks at no more bytes than this. */
  function EndOf(code: Code): (end: nat)
    ensures end <= |code.buf| && end <= MAX_INSN_SIZE
  {
    if |code.buf| > MAX_INSN_SIZE then MAX_INSN_SIZE else |code.buf|
  }

  /** The table has no prefix at zero, as the prefix list relies on. */
  ghost predicate ZeroIsNone(tables: Tables) { !IsLegacy(tables.opcode(0)) }

  /** How many different prefixes of the kind there are among `s`. */
  ghost function Switches(tables: Tables, s: seq<Byte>, kind: nat): nat {
    if s == [] then 0
    else
      var init, b := s[..|s| - 1], s[|s| - 1];
      Switches(tables, init, kind) + if tables.opcode(b).Prefix() == kind && b !in init then 1 else 0
  }

  /** The operand size after the legacy prefixes `s`: each operand size prefix switches it. */
  ghost function OpndAfter(tables: Tables, s: seq<Byte>): nat {
    if Switches(tables, s, 1) % 2 == 0 then 4 else 2
  }

  ghost function AddrAfter(x86_64: bool, tables: Tables, s: seq<Byte>): nat {
    if Switches(tables, s, 11) % 2 == 0 then (if x86_64 then 8 else 4) else if x86_64 then 4 else 2
  }

  lemma OneSwitch(x86_64: bool, tables: Tables, s: seq<Byte>, b: Byte)
    ensures var a := tables.opcode(b);
      && OpndAfter(tables, s + [b]) ==
         (if IsOperandSize(a) && b !in s then 6 - OpndAfter(tables, s) else OpndAfter(tables, s))
      && AddrAfter(x86_64, tables, s + [b]) ==
         if IsAddressSize(a) && b !in s then (if x86_64 then 12 else 6) - AddrAfter(x86_64, tables, s)
         else AddrAfter(x86_64, tables, s)
  {
    assert (s + [b])[..|s|] == s;
  }

  /** The attribute of an opcode of one or more bytes without a VEX prefix. */
  ghost function OpcodeAttr(tables: Tables, ops: seq<Byte>, id: nat): Attr
    requires ops != []
  {
    var n := |ops| - 1;
    if n == 0 then tables.opcode(ops[0]) else tables.escaped(ops[n], id, OpcodeAttr(tables, ops[..n], id))
  }

  lemma OpcodeAttrMore(tables: Tables, ops: seq<Byte>, b: Byte, id: nat)
    requires ops != []
    ensures OpcodeAttr(tables, ops + [b], id) == tables.escaped(b, id, OpcodeAttr(tables, ops, id))
  {
    assert (ops + [b])[..|ops|] == ops;
  }

  /** The lengths of an immediate by kind and operand size, first and second part. */
  ghost function ImmFirst(kind: nat, opndBytes: nat): nat {
    if kind == 1 then 1 else if kind == 2 then 2 else if kind == 3 || kind == 4 || opndBytes != 2 then 4 else 2
  }

  ghost function ImmSecond(kind: nat, opndBytes: nat): nat {
    if kind == 4 then 4 else if kind == 5 then 2 else if kind == 7 && opndBytes == 8 then 4 else 0
  }

  lemma XorSizes()
    ensures BitXor(8, 12) == 4 && BitXor(4, 12) == 8 && BitXor(4, 6) == 2 && BitXor(2, 6) == 4
  {
    assert BitXor(1, 1) == 0 && BitXor(2, 3) == 1 && BitXor(1, 3) == 2;
    assert BitXor(4, 6) == 2 && BitXor(2, 6) == 4;
  }

  // --- Scanning prefixes -----------------------------------------------------------------------------

  /** A scan has collected the bytes `s`, and switched the sizes by them. */
  ghost predicate ScanOk(code: Code, slots: seq<Byte>, nb: nat, s: seq<Byte>, opndBytes: nat, addrBytes: nat) {
    && Collected(slots, nb, s) && (forall i :: 0 <= i < |s| ==> IsLegacy(code.tables.opcode(s[i])))
    && opndBytes == OpndAfter(code.tables, s) && addrBytes == AddrAfter(code.x86_64, code.tables, s)
  }

  lemma ScanMore(code: Code, slots: seq<Byte>, nb: nat, s: seq<Byte>, b: Byte, opnd: nat, addr: nat, opnd': nat,
                 addr': nat)
    requires ScanOk(code, slots, nb, s, opnd, addr) && b != 0 && IsLegacy(code.tables.opcode(b)) && nb <= 4
    requires nb < 4 || b in slots[..nb]
    requires opnd' == if b !in slots[..nb] && IsOperandSize(code.tables.opcode(b)) then 6 - opnd else opnd
    requires addr' == if b !in slots[..nb]
      && IsAddressSize(code.tables.opcode(b)) then (if code.x86_64 then 12 else 6) - addr else addr
    ensures ScanOk(code, Listed(slots, nb, b), if b in slots[..nb] then nb else nb + 1, s + [b], opnd', addr')
  {
    Collect(slots, nb, s, b);
    Seen(slots, nb, s, b);
    OneSwitch(code.x86_64, code.tables, s, b);
  }

  /** The sizes that legacy prefixes can switch between. */
  predicate Switchables(x86_64: bool, opndBytes: nat, addrBytes: nat) {
    (opndBytes == 4 || opndBytes == 2) && (addrBytes == 4 || addrBytes == if x86_64 then 8 else 2)
  }

  /** Where a scan stands: the list of prefixes, its length and the sizes. */
  datatype Scan = Scan(slots: seq<Byte>, nb: nat, opnd: nat, addr: nat)

  type Scanning = st: Scan | |st.slots| == 4 && st.nb <= 4 witness Scan([0, 0, 0, 0], 0, 4, 4)

  /** The prefix is known already, or there is room for it. */
  predicate Takes(st: Scanning, b: Byte) { st.nb < 4 || b in st.slots[..st.nb] }

  ghost function Switched(x86_64: bool, a: Attr, st: Scanning): Scanning {
    if IsAddressSize(a) then st.(addr := BitXor(st.addr, if x86_64 then 12 else 6))
    else if IsOperandSize(a) then st.(opnd := BitXor(st.opnd, 6)) else st
  }

  /** A scan after one more prefix that it takes. */
  ghost function Stepped(code: Code, st: Scanning, b: Byte): Scanning
    requires Takes(st, b)
  {
    if b in st.slots[..st.nb] then st
    else Switched(code.x86_64, code.tables.opcode(b), st.(slots := st.slots[st.nb := b], nb := st.nb + 1))
  }

  /** The scan `st` can take all of `s`, which are legacy prefixes, and this is where it stands then. */
  ghost function Scanned(code: Code, st: Scanning, s: seq<Byte>): (r: (bool, Scanning)) {
    if s == [] then (true, st)
    else
      var (ok, st'), b := Scanned(code, st, s[..|s| - 1]), s[|s| - 1];
      if ok && IsLegacy(code.tables.opcode(b)) && Takes(st', b) then (true, Stepped(code, st', b)) else (false, st')
  }

  lemma {:induction false} ScannedSwitchable(code: Code, st: Scanning, s: seq<Byte>)
    requires Switchables(code.x86_64, st.opnd, st.addr)
    ensures Switchables(code.x86_64, Scanned(code, st, s).1.opnd, Scanned(code, st, s).1.addr)
  {
    if s != [] {
      ScannedSwitchable(code, st, s[..|s| - 1]);
      XorSizes();
    }
  }

  ghost function Begun(code: Code): Scanning { Scan(FOUR.bytes, 0, 4, if code.x86_64 then 8 else 4) }

  /** A scan from the start has collected what it took. */
  lemma {:induction false} ScannedOk(code: Code, s: seq<Byte>)
    requires ZeroIsNone(code.tables) && Scanned(code, Begun(code), s).0
    ensures var st := Scanned(code, Begun(code), s).1; ScanOk(code, st.slots, st.nb, s, st.opnd, st.addr)
  {
    if s != [] {
      var init, b := s[..|s| - 1], s[|s| - 1];
      var st, st' := Scanned(code, Begun(code), init).1, Scanned(code, Begun(code), s).1;
      ScannedOk(code, init);
      ScannedSwitchable(code, Begun(code), init);
      XorSizes();
      ScanMore(code, st.slots, st.nb, init, b, st.opnd, st.addr, st'.opnd, st'.addr);
      assert init + [b] == s;
    }
  }

  lemma ScannedMore(code: Code, st0: Scanning, j: nat, st: Scanning)
    requires j < |code.buf| && Scanned(code, st0, code.buf[..j]) == (true, st)
    requires IsLegacy(code.tables.opcode(code.buf[j])) && Takes(st, code.buf[j])
    ensures Scanned(code, st0, code.buf[..j + 1]) == (true, Stepped(code, st, code.buf[j]))
  {
    var s := code.buf[..j + 1];
    assert s[..|s| - 1] == code.buf[..j] && s[|s| - 1] == code.buf[j];
  }

  // --- Legacy prefixes ------------------------------------------------------------------------------

  /** How far legacy prefixes reach from `i` on, and where the scan then stands. */
  ghost function LegacyFrom(code: Code, i: nat, st: Scanning): (r: (nat, Scanning))
    ensures i <= r.0 && (i <= EndOf(code) ==> r.0 <= EndOf(code))
    decreases EndOf(code) - i
  {
    if i < EndOf(code) && IsLegacy(code.tables.opcode(code.buf[i])) && Takes(st, code.buf[i]) then
      LegacyFrom(code, i + 1, Stepped(code, st, code.buf[i]))
    else (i, st)
  }

  ghost function PrefixEnd(code: Code): (n: nat)
    ensures n <= EndOf(code)
  {
    LegacyFrom(code, 0, Begun(code)).0
  }

  ghost function LegacyScan(code: Code): Scanning { LegacyFrom(code, 0, Begun(code)).1 }

  ghost function LastByte(code: Code, i: nat, j: nat): Byte
    requires i <= j <= |code.buf|
  {
    if i == j then 0 else code.buf[j - 1]
  }

  ghost function SlotsOf(code: Code): (slots: seq<Byte>)
    ensures |slots| == 4
  {
    PutLast(LegacyScan(code).slots, LegacyScan(code).nb, LastByte(code, 0, PrefixEnd(code)))
  }

  lemma {:induction false} LegacyScanned(code: Code, st0: Scanning, j: nat, st: Scanning)
    requires j <= EndOf(code) && Scanned(code, st0, code.buf[..j]) == (true, st)
    ensures var (n, st') := LegacyFrom(code, j, st); Scanned(code, st0, code.buf[..n]) == (true, st')
    decreases EndOf(code) - j
  {
    if j < EndOf(code) && IsLegacy(code.tables.opcode(code.buf[j])) && Takes(st, code.buf[j]) {
      ScannedMore(code, st0, j, st);
      LegacyScanned(code, st0, j + 1, Stepped(code, st, code.buf[j]));
    }
  }

  lemma {:induction false} LegacyStops(code: Code, i: nat, st: Scanning)
    ensures var (n, st') := LegacyFrom(code, i, st);
      n < EndOf(code) ==> !IsLegacy(code.tables.opcode(code.buf[n])) || !Takes(st', code.buf[n])
    decreases EndOf(code) - i
  {
    if i < EndOf(code) && IsLegacy(code.tables.opcode(code.buf[i])) && Takes(st, code.buf[i]) {
      LegacyStops(code, i + 1, Stepped(code, st, code.buf[i]));
    }
  }

  /** The legacy prefixes: all bytes up to the first that is none, or that is a fifth kind; the list
      holds each kind, the last one last; each kind of size prefix has switched its size once. */
  lemma LegacyMeans(code: Code)
    requires ZeroIsNone(code.tables)
    ensures var s := code.buf[..PrefixEnd(code)];
      && Held(SlotsOf(code), s, code.tables)
      && LegacyScan(code).opnd == OpndAfter(code.tables, s)
      && LegacyScan(code).addr == AddrAfter(code.x86_64, code.tables, s)
    ensures PrefixEnd(code) < EndOf(code) ==>
      var b := code.buf[PrefixEnd(code)];
      !IsLegacy(code.tables.opcode(b)) || (LegacyScan(code).nb == 4 && b !in code.buf[..PrefixEnd(code)])
  {
    var s, st := code.buf[..PrefixEnd(code)], LegacyScan(code);
    assert code.buf[..0] == [];
    LegacyScanned(code, Begun(code), 0, Begun(code));
    ScannedOk(code, s);
    ScanHeld(st.slots, st.nb, s, LastByte(code, 0, |s|), code.tables);
    LegacyStops(code, 0, Begun(code));
    if PrefixEnd(code) < EndOf(code) && IsLegacy(code.tables.opcode(code.buf[PrefixEnd(code)])) {
      Seen(st.slots, st.nb, s, code.buf[PrefixEnd(code)]);
    }
  }

  /** The sizes after legacy prefixes are ones that can be switched between. */
  lemma LegacySizes(code: Code)
    ensures Switchables(code.x86_64, LegacyScan(code).opnd, LegacyScan(code).addr)
  {
    assert code.buf[..0] == [];
    LegacyScanned(code, Begun(code), 0, Begun(code));
    ScannedSwitchable(code, Begun(code), code.buf[..PrefixEnd(code)]);
  }

  // --- REX and VEX ------------------------------------------------------------------------------------

  ghost function RexLen(code: Code, i: nat): nat {
    if code.x86_64 && i < EndOf(code) && IsRex(code.tables.opcode(code.buf[i])) then 1 else 0
  }

  /** The length of a VEX or EVEX prefix at `i`; in 32-bit mode the ModRM byte of another
      instruction can stand behind its first byte. */
  ghost function VexLen(code: Code, i: nat): nat {
    if i + 1 >= EndOf(code) then 0
    else
      var a := code.tables.opcode(code.buf[i]);
      if !IsVex(a) || (!code.x86_64 && Mod(code.buf[i + 1]) != 3) then 0
      else if IsEvex(a) then 4
      else if IsVex3(a) then 3
      else 2
  }

  /** There is a byte at `i`, and if it starts a VEX prefix, that is there as a whole. */
  ghost predicate VexFits(code: Code, i: nat) {
    && i < EndOf(code)
    && (IsVex(code.tables.opcode(code.buf[i])) ==> i + 1 < EndOf(code) && i + VexLen(code, i) <= EndOf(code))
  }

  /** The bytes of the prefix; one of two bytes is made to look like one of three. */
  ghost function VexBytes(code: Code, i: nat): (v: seq<Byte>)
    requires VexFits(code, i)
    ensures |v| == 4
  {
    var n := VexLen(code, i);
    if n == 0 then [0, 0, 0, 0]
    else
      var third := if n == 2 then code.buf[i + 1] % 128 else code.buf[i + 2];
      [code.buf[i], code.buf[i + 1], third, if n == 4 then code.buf[i + 3] else 0]
  }

  /** What the prefixes are: the legacy ones in their slots and the number of their bytes, the
      REX prefix, and the bytes and length of the VEX prefix. */
  datatype Pre = Pre(slots: seq<Byte>, n: nat, rex: seq<Byte>, vex: seq<Byte>, vn: nat)

  ghost predicate FourEach(p: Pre) { |p.slots| == 4 && |p.vex| == 4 }

  ghost predicate RexWide(rex: seq<Byte>) { rex != [] && RexW(rex[0]) }

  ghost predicate VexWide(x86_64: bool, vex: seq<Byte>, n: nat) {
    x86_64 && |vex| == 4 && 3 <= n <= 4 && VexW(vex[n - 1])
  }

  ghost function VexAt(code: Code): nat { PrefixEnd(code) + RexLen(code, PrefixEnd(code)) }

  ghost predicate PrefixesFit(code: Code) { VexFits(code, VexAt(code)) }

  ghost function PreOf(code: Code): (p: Pre)
    requires PrefixesFit(code)
    ensures FourEach(p)
  {
    var v := VexAt(code);
    Pre(SlotsOf(code), PrefixEnd(code), code.buf[PrefixEnd(code)..v], VexBytes(code, v), VexLen(code, v))
  }

  ghost function PrefixOpnd(code: Code): nat
    requires PrefixesFit(code)
  {
    if RexWide(PreOf(code).rex) || VexWide(code.x86_64, PreOf(code).vex, PreOf(code).vn) then 8
    else LegacyScan(code).opnd
  }

  /** The first scan of the prefixes is the only one: they fit, or nothing is left for an opcode. */
  ghost predicate ScansOnce(code: Code) { PrefixesFit(code) || VexAt(code) == EndOf(code) }

  // --- The opcode ---------------------------------------------------------------------------------------

  ghost function OpcodeAt(code: Code): (i: nat)
    requires PrefixesFit(code)
    ensures i <= EndOf(code)
  {
    VexAt(code) + VexLen(code, VexAt(code))
  }

  predicate Avx(vex: seq<Byte>)
    requires |vex| == 4
  {
    vex[0] != 0 || vex[1] != 0 || vex[2] != 0 || vex[3] != 0
  }

  /** `insn_vex_p_bits` and `insn_vex_m_bits` */
  function VexP(vex: seq<Byte>, n: nat): nat
    requires |vex| == 4
  {
    if n == 2 then vex[1] % 4 else vex[2] % 4
  }

  function VexM(vex: seq<Byte>, n: nat): nat
    requires |vex| == 4
  {
    if n == 2 then 1 else if n == 3 then vex[1] % 32 else vex[1] % 4
  }

  ghost function LastId(tables: Tables, p: Pre): nat
    requires FourEach(p)
  {
    if Avx(p.vex) then VexP(p.vex, p.vn) else if p.slots[3] != 0 then LastPrefixOf(tables.opcode(p.slots[3])) else 0
  }

  /** The attribute of an opcode after a VEX prefix, and without one. */
  ghost function AvxAttr(tables: Tables, p: Pre, op: Byte): Attr
    requires FourEach(p)
  {
    var a := tables.avx(op, VexM(p.vex, p.vn), VexP(p.vex, p.vn));
    if (a.Has(EvexOnly) && p.vn != 4) || (!a.Has(VexOk) && a.Group() == 0) then Bad else a
  }

  ghost function PlainAttr(tables: Tables, ops: seq<Byte>, id: nat): Attr
    requires ops != []
  {
    var a := OpcodeAttr(tables, ops, id);
    if a.Has(VexOnly) || a.Has(EvexOnly) then Bad else a
  }

  /** The first `m` opcode bytes at `i` end in an escape. */
  ghost predicate EscapeAt(code: Code, id: nat, i: nat, m: nat)
    requires 0 < m && i + m <= |code.buf|
  {
    OpcodeAttr(code.tables, code.buf[i..i + m], id).Escape() != 0
  }

  /** The number of opcode bytes at `i`, when the first `k` are there and all before the last of
      them are escapes; zero if the code ends in escapes. */
  ghost function OpcodeLen(code: Code, id: nat, i: nat, k: nat): (n: nat)
    requires 0 < k && i + k <= EndOf(code)
    ensures n == 0 || (k <= n && i + n <= EndOf(code))
    decreases EndOf(code) - i - k
  {
    if !EscapeAt(code, id, i, k) then k else if i + k < EndOf(code) then OpcodeLen(code, id, i, k + 1) else 0
  }

  /** The opcode goes on just as long as there are escapes. */
  lemma {:induction false} OpcodeMeans(code: Code, id: nat, i: nat, k: nat)
    requires 0 < k && i + k <= EndOf(code) && forall m :: 0 < m < k ==> EscapeAt(code, id, i, m)
    ensures var n := OpcodeLen(code, id, i, k);
      && (n > 0 ==> !EscapeAt(code, id, i, n))
      && forall m :: 0 < m && i + m <= EndOf(code) && (n > 0 ==> m < n) ==> EscapeAt(code, id, i, m)
    decreases EndOf(code) - i - k
  {
    if EscapeAt(code, id, i, k) && i + k < EndOf(code) { OpcodeMeans(code, id, i, k + 1); }
  }

  /** The number of opcode bytes at `i` after the prefixes `p`; zero if they are not all there. */
  ghost function OpLenAt(code: Code, p: Pre, i: nat): (n: nat)
    requires FourEach(p) && i <= EndOf(code)
    ensures i + n <= EndOf(code)
  {
    if i == EndOf(code) then 0 else if Avx(p.vex) then 1 else OpcodeLen(code, LastId(code.tables, p), i, 1)
  }

  /** Their attribute. */
  ghost function OpAttr(tables: Tables, p: Pre, ops: seq<Byte>): Attr
    requires FourEach(p) && ops != []
  {
    if Avx(p.vex) then AvxAttr(tables, p, ops[0]) else PlainAttr(tables, ops, LastId(tables, p))
  }

  ghost function OpLen(code: Code): (n: nat)
    requires PrefixesFit(code)
    ensures OpcodeAt(code) + n <= EndOf(code)
  {
    OpLenAt(code, PreOf(code), OpcodeAt(code))
  }

  ghost predicate OpcodeFits(code: Code) { PrefixesFit(code) && OpLen(code) > 0 }

  ghost function OpsOf(code: Code): (ops: seq<Byte>)
    requires OpcodeFits(code)
    ensures ops != []
  {
    code.buf[OpcodeAt(code)..ModrmAt(code)]
  }

  ghost function BaseAttr(code: Code): Attr
    requires OpcodeFits(code)
  {
    OpAttr(code.tables, PreOf(code), OpsOf(code))
  }

  // --- ModRM, SIB and displacement ------------------------------------------------------------------------

  ghost function ModrmAt(code: Code): (i: nat)
    requires OpcodeFits(code)
    ensures i <= EndOf(code)
  {
    OpcodeAt(code) + OpLen(code)
  }

  ghost function ModrmLen(a: Attr): nat { if a.Has(Modrm) then 1 else 0 }

  ghost predicate ModrmFits(code: Code) { OpcodeFits(code) && ModrmAt(code) + ModrmLen(BaseAttr(code)) <= EndOf(code) }

  ghost function ModrmOf(code: Code): seq<Byte>
    requires ModrmFits(code)
  {
    code.buf[ModrmAt(code)..SibAt(code)]
  }

  /** The attribute of the instruction, which the ModRM byte decides for a group; `a` is the
      opcode's attribute. */
  ghost function ModAttr(tables: Tables, a: Attr, p: Pre, modrm: seq<Byte>): Attr
    requires FourEach(p)
  {
    if !a.Has(Modrm) || a.Group() == 0 || modrm == [] then a
    else
      var g := tables.grouped(modrm[0], LastId(tables, p), a);
      if Avx(p.vex) && !g.Has(VexOk) then Bad else g
  }

  ghost function AttrOf(code: Code): Attr
    requires ModrmFits(code)
  {
    ModAttr(code.tables, BaseAttr(code), PreOf(code), ModrmOf(code))
  }

  /** The operand and address sizes. */
  ghost function OpndOf(code: Code): nat
    requires ModrmFits(code)
  {
    if code.x86_64 && AttrOf(code).Has(Force64) then 8 else PrefixOpnd(code)
  }

  ghost function AddrOf(code: Code): nat { LegacyScan(code).addr }

  ghost function SibAt(code: Code): (i: nat)
    requires ModrmFits(code)
    ensures i <= EndOf(code)
  {
    ModrmAt(code) + ModrmLen(BaseAttr(code))
  }

  /** A SIB byte follows a ModRM byte with r/m 4 and a memory operand, but not with 16-bit addresses. */
  predicate HasSib(modrm: seq<Byte>, addrBytes: nat) {
    modrm != [] && addrBytes != 2 && Mod(modrm[0]) != 3 && Rm(modrm[0]) == 4
  }

  ghost function SibLen(modrm: seq<Byte>, addrBytes: nat): nat { if HasSib(modrm, addrBytes) then 1 else 0 }

  ghost predicate SibFits(code: Code) {
    ModrmFits(code) && SibAt(code) + SibLen(ModrmOf(code), AddrOf(code)) <= EndOf(code)
  }

  ghost function SibOf(code: Code): seq<Byte>
    requires SibFits(code)
  {
    code.buf[SibAt(code)..DispAt(code)]
  }

  ghost function DispAt(code: Code): (i: nat)
    requires SibFits(code)
    ensures i <= EndOf(code)
  {
    SibAt(code) + SibLen(ModrmOf(code), AddrOf(code))
  }

  /** The length of the displacement, by the ModRM and SIB bytes and the address size. */
  function DispSize(modrm: seq<Byte>, sib: seq<Byte>, addrBytes: nat): (n: nat)
    ensures n <= 4
  {
    if modrm == [] then 0
    else
      var mod, rm := Mod(modrm[0]), Rm(modrm[0]);
      var base := if sib == [] then 0 else Base(sib[0]);
      if mod == 3 then 0
      else if mod == 1 then 1
      else if addrBytes == 2 then (if mod == 2 || rm == 6 then 2 else 0)
      else if mod == 2 || rm == 5 || base == 5 then 4
      else 0
  }

  ghost function DispLen(code: Code): (n: nat)
    requires SibFits(code)
    ensures n <= 4
  {
    DispSize(ModrmOf(code), SibOf(code), AddrOf(code))
  }

  ghost predicate DispFits(code: Code) { SibFits(code) && DispAt(code) + DispLen(code) <= EndOf(code) }

  ghost function DispOf(code: Code): seq<Byte>
    requires DispFits(code)
  {
    code.buf[DispAt(code)..ImmAt(code)]
  }

  // --- Immediates -------------------------------------------------------------------------------------------

  ghost function ImmAt(code: Code): (i: nat)
    requires DispFits(code)
    ensures i <= EndOf(code)
  {
    DispAt(code) + DispLen(code)
  }

  /** The lengths of the two parts of the offset or immediate. */
  ghost function FirstLen(a: Attr, addrBytes: nat, opndBytes: nat): nat {
    if a.Has(Moffset) then (if addrBytes == 2 then 2 else 4)
    else if a.Imm() == 0 then 0
    else ImmFirst(a.Imm(), opndBytes)
  }

  ghost function SecondLen(a: Attr, addrBytes: nat, opndBytes: nat): nat {
    if a.Has(Moffset) then (if addrBytes == 8 then 4 else 0)
    else if a.Imm() == 0 then 0
    else ImmSecond(a.Imm(), opndBytes)
  }

  ghost function ImmLen(a: Attr, addrBytes: nat, opndBytes: nat): nat {
    FirstLen(a, addrBytes, opndBytes) + SecondLen(a, addrBytes, opndBytes)
  }

  /** The kind of immediate is known, and there is one for the size. */
  ghost predicate KindKnown(a: Attr, addrBytes: nat, opndBytes: nat) {
    if a.Has(Moffset) then Size(addrBytes)
    else a.Imm() <= 7 && (a.Imm() >= 5 ==> Size(opndBytes)) && !(a.Imm() == 5 && opndBytes == 8)
  }

  ghost predicate Size(n: nat) { n == 2 || n == 4 || n == 8 }

  /** A second immediate, of one byte, follows. */
  ghost predicate WithSecond(a: Attr) { !a.Has(Moffset) && a.Imm() != 0 && a.Has(SecondImm) }

  /** The first immediate is counted as the whole as soon as it is there. */
  ghost predicate CountsAlone(a: Attr) { !a.Has(Moffset) && (a.Imm() == 5 || a.Imm() == 7) }

  /** The offset or immediate at `i` is of a known kind and is there before `end`. */
  ghost predicate PartsAt(end: nat, i: nat, a: Attr, addrBytes: nat, opndBytes: nat) {
    KindKnown(a, addrBytes, opndBytes) && i + ImmLen(a, addrBytes, opndBytes) <= end
  }

  /** And there is a byte for a second immediate after it. */
  ghost predicate SecondAt(end: nat, i: nat, a: Attr, addrBytes: nat, opndBytes: nat) {
    PartsAt(end, i, a, addrBytes, opndBytes) && WithSecond(a) && i + ImmLen(a, addrBytes, opndBytes) < end
  }

  /** Less than four bytes have no room for an immediate in two parts. */
  lemma TooShort(end: nat, i: nat, a: Attr, addrBytes: nat, opndBytes: nat)
    requires end < i + 4
    ensures PartsAt(end, i, a, addrBytes, opndBytes) ==> SecondLen(a, addrBytes, opndBytes) == 0
  {
  }

  ghost predicate PartsFit(code: Code) {
    DispFits(code) && PartsAt(EndOf(code), ImmAt(code), AttrOf(code), AddrOf(code), OpndOf(code))
  }

  /** There is a byte for the second immediate. */
  ghost predicate SecondFits(code: Code) {
    DispFits(code) && SecondAt(EndOf(code), ImmAt(code), AttrOf(code), AddrOf(code), OpndOf(code))
  }

  /** The whole instruction is there. */
  ghost predicate Whole(code: Code) { PartsFit(code) && (WithSecond(AttrOf(code)) ==> SecondFits(code)) }

  /** The decoder counts the instruction as complete, though its second immediate is missing. */
  ghost predicate CutOff(code: Code) {
    PartsFit(code) && WithSecond(AttrOf(code)) && CountsAlone(AttrOf(code)) && !SecondFits(code)
  }

  /** The second immediate is stored over the second part of the first. */
  ghost predicate Overwritten(code: Code) {
    SecondFits(code) && SecondLen(AttrOf(code), AddrOf(code), OpndOf(code)) > 0
  }

  /** Where an instruction ends whose immediates are at `i`, and what its immediate fields hold. */
  ghost function ImmEnd(end: nat, i: nat, a: Attr, addrBytes: nat, opndBytes: nat): (j: nat)
    requires PartsAt(end, i, a, addrBytes, opndBytes)
    ensures i <= j <= end
  {
    i + ImmLen(a, addrBytes, opndBytes) + if SecondAt(end, i, a, addrBytes, opndBytes) then 1 else 0
  }

  ghost function Imm2At(end: nat, i: nat, a: Attr, addrBytes: nat, opndBytes: nat): (j: nat)
    requires PartsAt(end, i, a, addrBytes, opndBytes)
    ensures i <= j <= ImmEnd(end, i, a, addrBytes, opndBytes)
  {
    i + if SecondAt(end, i, a, addrBytes, opndBytes) then ImmLen(a, addrBytes, opndBytes)
      else FirstLen(a, addrBytes, opndBytes)
  }

  ghost function InsnEnd(code: Code): (i: nat)
    requires PartsFit(code)
    ensures i <= EndOf(code)
  {
    ImmEnd(EndOf(code), ImmAt(code), AttrOf(code), AddrOf(code), OpndOf(code))
  }

  ghost function ImmOf(code: Code): seq<Byte>
    requires PartsFit(code)
  {
    code.buf[ImmAt(code)..ImmAt(code) + FirstLen(AttrOf(code), AddrOf(code), OpndOf(code))]
  }

  ghost function Imm2Of(code: Code): seq<Byte>
    requires PartsFit(code)
  {
    code.buf[Imm2At(EndOf(code), ImmAt(code), AttrOf(code), AddrOf(code), OpndOf(code))..InsnEnd(code)]
  }

  /** The fields in their order, with the bytes of all prefixes. */
  ghost function FieldsOf(code: Code): seq<Byte>
    requires PartsFit(code)
  {
    code.buf[..OpcodeAt(code)] + OpsOf(code) + ModrmOf(code) + SibOf(code) + DispOf(code) + ImmOf(code) + Imm2Of(code)
  }

  lemma Adjoined(s: seq<Byte>, i: nat, j: nat)
    requires i <= j <= |s|
    ensures s[..i] + s[i..j] == s[..j]
  {
  }

  lemma AllAdjoined(s: seq<Byte>, i: nat, j: nat, k: nat, l: nat, m: nat)
    requires i <= j <= k <= l <= m <= |s|
    ensures s[..i] + s[i..j] + s[j..k] + s[k..l] + s[l..m] == s[..m]
  {
    Adjoined(s, i, j);
    Adjoined(s, j, k);
    Adjoined(s, k, l);
    Adjoined(s, l, m);
  }

  /** The fields up to the displacement are the code up to it, without a gap or an overlap. */
  lemma FieldsAdjoin(code: Code)
    requires DispFits(code)
    ensures code.buf[..OpcodeAt(code)] + OpsOf(code) + ModrmOf(code) + SibOf(code) + DispOf(code) ==
      code.buf[..ImmAt(code)]
  {
    AllAdjoined(code.buf, OpcodeAt(code), ModrmAt(code), SibAt(code), DispAt(code), ImmAt(code));
  }

  lemma ImmediatesAdjoin(s: seq<Byte>, end: nat, i: nat, a: Attr, addr: nat, opnd: nat)
    requires PartsAt(end, i, a, addr, opnd) && end <= |s|
    ensures var j, n1, m := ImmEnd(end, i, a, addr, opnd), FirstLen(a, addr, opnd), Imm2At(end, i, a, addr, opnd);
      s[..i] + s[i..i + n1] + s[m..j] == s[..j] <==> !(SecondAt(end, i, a, addr, opnd) && SecondLen(a, addr, opnd) > 0)
  {
    var j, n1, m := ImmEnd(end, i, a, addr, opnd), FirstLen(a, addr, opnd), Imm2At(end, i, a, addr, opnd);
    Adjoined(s, i, i + n1);
    if m == i + n1 {
      Adjoined(s, m, j);
    } else {
      assert |s[..i] + s[i..i + n1] + s[m..j]| < j;
    }
  }

  /** The fields are the code of the instruction again, unless an immediate is stored over another. */
  lemma FieldsAgain(code: Code)
    requires PartsFit(code)
    ensures FieldsOf(code) == code.buf[..InsnEnd(code)] <==> !Overwritten(code)
  {
    FieldsAdjoin(code);
    ImmediatesAdjoin(code.buf, EndOf(code), ImmAt(code), AttrOf(code), AddrOf(code), OpndOf(code));
  }

  // --- The shipped opcode map ---------------------------------------------------------------------------------

  /** A second immediate comes only after one of two bytes. In arch/x86/lib/x86-opcode-map.txt the one
      opcode with two immediates is `ENTER Iw,Ib`. */
  ghost predicate AfterWord(a: Attr) { a.Has(SecondImm) ==> a.Imm() == 2 }

  ghost predicate OnlyEnter(tables: Tables) {
    && (forall b: Byte :: AfterWord(tables.opcode(b)))
    && (forall b: Byte, id: nat, a: Attr :: AfterWord(a) ==> AfterWord(tables.escaped(b, id, a)))
    && (forall b: Byte, id: nat, a: Attr :: AfterWord(a) ==> AfterWord(tables.grouped(b, id, a)))
    && (forall b: Byte, m: nat, p: nat :: AfterWord(tables.avx(b, m, p)))
  }

  lemma {:induction false} EnterOpcode(tables: Tables, ops: seq<Byte>, id: nat)
    requires OnlyEnter(tables) && ops != []
    ensures AfterWord(OpcodeAttr(tables, ops, id))
  {
    if |ops| > 1 { EnterOpcode(tables, ops[..|ops| - 1], id); }
  }

  /** With such tables no immediate is stored over another, and none is cut off. */
  lemma EnterWhole(code: Code)
    requires OnlyEnter(code.tables)
    ensures !Overwritten(code) && !CutOff(code)
  {
    if PartsFit(code) {
      EnterOpcode(code.tables, OpsOf(code), LastId(code.tables, PreOf(code)));
      assert AfterWord(BaseAttr(code)) && AfterWord(AttrOf(code));
    }
  }

  // --- Instructions of one opcode byte ------------------------------------------------------------------------

  /** An opcode without prefixes, escapes, a group or a ModRM byte. */
  ghost predicate Simple(a: Attr) {
    a.Prefix() == a.Escape() == a.Group() == 0 && !a.Has(Modrm) && !a.Has(Force64) && !a.Has(VexOnly)
      && !a.Has(EvexOnly)
  }

  lemma OneByte(code: Code)
    requires code.buf != [] && Simple(code.tables.opcode(code.buf[0]))
    ensures ScansOnce(code) && DispFits(code) && OpcodeAt(code) == 0 && ImmAt(code) == 1
    ensures AttrOf(code) == code.tables.opcode(code.buf[0]) && OpndOf(code) == 4
      && AddrOf(code) == if code.x86_64 then 8 else 4
  {
    assert LegacyFrom(code, 0, Begun(code)) == (0, Begun(code));
    assert PrefixesFit(code) && VexLen(code, 0) == 0 && OpcodeAt(code) == 0;
    assert !Avx(PreOf(code).vex);
    assert code.buf[0..1] == [code.buf[0]];
    assert OpLen(code) == 1;
  }

  lemma OverwrittenSimple(code: Code)
    requires |code.buf| >= 10 && Simple(code.tables.opcode(code.buf[0]))
    requires var a := code.tables.opcode(code.buf[0]); !a.Has(Moffset) && a.Imm() == 4 && a.Has(SecondImm)
    ensures ScansOnce(code) && Whole(code) && Overwritten(code) && InsnEnd(code) == 10 && |Imm2Of(code)| == 1
  {
    OneByte(code);
  }

  /** Made-up tables: an opcode with an immediate of eight bytes and a second one, and enough bytes for both. */
  function OverwrittenExample(x86_64: bool): Code {
    Code(seq(10, _ => 1), x86_64, Tables(_ => Attr(0, 0, 0, 4, {SecondImm}), (_, _, a) => a, (_, _, a) => a,
      (_, _, _) => Bad))
  }

  lemma OverwrittenIs(x86_64: bool)
    ensures var code := OverwrittenExample(x86_64);
      ScansOnce(code) && Whole(code) && Overwritten(code) && InsnEnd(code) == 10 && |Imm2Of(code)| == 1
  {
    OverwrittenSimple(OverwrittenExample(x86_64));
  }

  lemma CutOffSimple(code: Code)
    requires |code.buf| == 5 && Simple(code.tables.opcode(code.buf[0]))
    requires var a := code.tables.opcode(code.buf[0]); !a.Has(Moffset) && a.Imm() == 7 && a.Has(SecondImm)
    ensures ScansOnce(code) && CutOff(code) && !Whole(code) && PartsFit(code) && InsnEnd(code) == 5
      && Imm2Of(code) == []
  {
    OneByte(code);
  }

  /** Made-up tables: an opcode with an immediate of the operand size and a second one, for which no byte is left. */
  function CutOffExample(x86_64: bool): Code {
    Code(seq(5, _ => 1), x86_64, Tables(_ => Attr(0, 0, 0, 7, {SecondImm}), (_, _, a) => a, (_, _, a) => a,
      (_, _, _) => Bad))
  }

  lemma CutOffIs(x86_64: bool)
    ensures var code := CutOffExample(x86_64);
      ScansOnce(code) && CutOff(code) && !Whole(code) && PartsFit(code) && InsnEnd(code) == 5 && Imm2Of(code) == []
  {
    CutOffSimple(CutOffExample(x86_64));
  }
}
