/** Operands and VEX prefixes from the assembler's side: how sections 2.1.5 and 2.3.5 of volume 2 of the
    Intel SDM put them into bytes, and that the decoder gets them back. */
module InsnFormat {
  import opened Machine
  import opened InsnCode
  import opened InsnSteps
  import opened InsnRight
  import opened Insn

  // --- Operands --------------------------------------------------------------------------------------

  /** A register; a place in memory, by a base register and a displacement of no, one or four bytes;
      the same with a scaled index; a place by a displacement of four bytes alone or with an index;
      and the forms of 16-bit addresses, by number, or a displacement of two bytes alone. */
  datatype Operand =
    | Register(r: nat)
    | Based(base: nat, disp: seq<Byte>)
    | Direct(disp: seq<Byte>)
    | Indexed(scale: nat, index: nat, base: nat, disp: seq<Byte>)
    | IndexedOnly(scale: nat, index: nat, disp: seq<Byte>)
    | Form16(form: nat, disp: seq<Byte>)
    | Direct16(disp: seq<Byte>)

  /** What can be written with addresses of so many bytes. Register number 4 cannot be a base without a
      SIB byte, and number 5 not without a displacement; the 16-bit form 6 neither. */
  ghost predicate Encodable(x: Operand, addrBytes: nat) {
    match x
    case Register(r) => r < 8
    case Based(base, disp) =>
      addrBytes != 2 && base < 8 && base != 4 && (|disp| == 1 || |disp| == 4 || (|disp| == 0 && base != 5))
    case Direct(disp) => addrBytes != 2 && |disp| == 4
    case Indexed(scale, index, base, disp) =>
      && addrBytes != 2 && scale < 4 && index < 8 && base < 8
      && (|disp| == 1 || |disp| == 4 || (|disp| == 0 && base != 5))
    case IndexedOnly(scale, index, disp) => addrBytes != 2 && scale < 4 && index < 8 && |disp| == 4
    case Form16(form, disp) =>
      addrBytes == 2 && form < 8 && (|disp| == 1 || |disp| == 2 || (|disp| == 0 && form != 6))
    case Direct16(disp) => addrBytes == 2 && |disp| == 2
  }

  /** Three fields of two, three and three bits. */
  ghost function Packed(hi: nat, mid: nat, lo: nat): Byte
    requires hi < 4 && mid < 8 && lo < 8
  {
    hi * 64 + mid * 8 + lo
  }

  /** The mod field for a displacement that is not alone. */
  ghost function ModFor(disp: seq<Byte>): nat { if disp == [] then 0 else if |disp| == 1 then 1 else 2 }

  /** The ModRM byte; `reg` is the register or opcode extension it names besides. */
  ghost function ModrmByte(x: Operand, reg: nat, addrBytes: nat): Byte
    requires Encodable(x, addrBytes) && reg < 8
  {
    match x
    case Register(r) => Packed(3, reg, r)
    case Based(base, disp) => Packed(ModFor(disp), reg, base)
    case Direct(disp) => Packed(0, reg, 5)
    case Indexed(_, _, _, disp) => Packed(ModFor(disp), reg, 4)
    case IndexedOnly(_, _, _) => Packed(0, reg, 4)
    case Form16(form, disp) => Packed(ModFor(disp), reg, form)
    case Direct16(_) => Packed(0, reg, 6)
  }

  ghost function SibBytes(x: Operand, addrBytes: nat): seq<Byte>
    requires Encodable(x, addrBytes)
  {
    match x
    case Indexed(scale, index, base, _) => [Packed(scale, index, base)]
    case IndexedOnly(scale, index, _) => [Packed(scale, index, 5)]
    case _ => []
  }

  ghost function DispBytes(x: Operand): seq<Byte> { if x.Register? then [] else x.disp }

  ghost function Encode(x: Operand, reg: nat, addrBytes: nat): (b: seq<Byte>)
    requires Encodable(x, addrBytes) && reg < 8
  {
    [ModrmByte(x, reg, addrBytes)] + SibBytes(x, addrBytes) + DispBytes(x)
  }

  // --- Getting operands back -------------------------------------------------------------------------

  lemma Quotient(q: nat, r: nat)
    requires r < 64
    ensures (64 * q + r) / 64 == q
  {
  }

  lemma Remainder(q: nat, r: nat)
    requires r < 8
    ensures (8 * q + r) % 8 == r
  {
  }

  lemma Unpacked(hi: nat, mid: nat, lo: nat)
    requires hi < 4 && mid < 8 && lo < 8
    ensures Mod(Packed(hi, mid, lo)) == hi && Rm(Packed(hi, mid, lo)) == lo && Base(Packed(hi, mid, lo)) == lo
  {
    var b := Packed(hi, mid, lo);
    assert b == 64 * hi + (mid * 8 + lo) && b == 8 * (hi * 8 + mid) + lo;
    Quotient(hi, mid * 8 + lo);
    Remainder(hi * 8 + mid, lo);
  }

  lemma SibBack(x: Operand, reg: nat, addrBytes: nat)
    requires Encodable(x, addrBytes) && reg < 8
    ensures SibLen([ModrmByte(x, reg, addrBytes)], addrBytes) == |SibBytes(x, addrBytes)|
  {
    match x
    case Register(r) => Unpacked(3, reg, r);
    case Based(base, disp) => Unpacked(ModFor(disp), reg, base);
    case Direct(disp) => Unpacked(0, reg, 5);
    case Indexed(_, _, _, disp) => Unpacked(ModFor(disp), reg, 4);
    case IndexedOnly(_, _, _) => Unpacked(0, reg, 4);
    case Form16(_, _) =>
    case Direct16(_) =>
  }

  lemma DispBack(x: Operand, reg: nat, addrBytes: nat)
    requires Encodable(x, addrBytes) && reg < 8
    ensures DispSize([ModrmByte(x, reg, addrBytes)], SibBytes(x, addrBytes), addrBytes) == |DispBytes(x)|
  {
    match x
    case Register(r) => Unpacked(3, reg, r);
    case Based(base, disp) => Unpacked(ModFor(disp), reg, base);
    case Direct(disp) => Unpacked(0, reg, 5);
    case Indexed(scale, index, base, disp) =>
      Unpacked(ModFor(disp), reg, 4);
      Unpacked(scale, index, base);
    case IndexedOnly(scale, index, _) =>
      Unpacked(0, reg, 4);
      Unpacked(scale, index, 5);
    case Form16(form, disp) => Unpacked(ModFor(disp), reg, form);
    case Direct16(_) => Unpacked(0, reg, 6);
  }

  /** The opcode asks for a ModRM byte, and the operand's bytes follow it. */
  ghost predicate Follows(code: Code, x: Operand, reg: nat) {
    && OpcodeFits(code) && BaseAttr(code).Has(Modrm) && Encodable(x, AddrOf(code)) && reg < 8
    && var b, i := Encode(x, reg, AddrOf(code)), ModrmAt(code);
    i + |b| <= EndOf(code) && code.buf[i..i + |b|] == b
  }

  /** The parts of some bytes in a buffer. */
  lemma PartsIn(buf: seq<Byte>, i: nat, m: Byte, sib: seq<Byte>, disp: seq<Byte>)
    requires var b := [m] + sib + disp; i + |b| <= |buf| && buf[i..i + |b|] == b
    ensures buf[i..i + 1] == [m] && buf[i + 1..i + 1 + |sib|] == sib
    ensures buf[i + 1 + |sib|..i + 1 + |sib| + |disp|] == disp
  {
    var b, k := [m] + sib + disp, i + 1 + |sib|;
    var w := buf[i..i + |b|];
    assert forall j :: 0 <= j < |b| ==> w[j] == buf[i + j];
    assert buf[i..i + 1] == b[..1] && buf[i + 1..k] == b[1..1 + |sib|] && buf[k..k + |disp|] == b[1 + |sib|..];
  }

  lemma ModrmBack(code: Code, m: Byte)
    requires OpcodeFits(code) && BaseAttr(code).Has(Modrm) && ModrmAt(code) < EndOf(code)
    requires code.buf[ModrmAt(code)..ModrmAt(code) + 1] == [m]
    ensures ModrmFits(code) && SibAt(code) == ModrmAt(code) + 1 && ModrmOf(code) == [m]
  {
  }

  lemma FieldsBack(code: Code, m: Byte, sib: seq<Byte>, disp: seq<Byte>)
    requires ModrmFits(code) && ModrmOf(code) == [m] && SibLen([m], AddrOf(code)) == |sib|
    requires DispSize([m], sib, AddrOf(code)) == |disp| && SibAt(code) + |sib| + |disp| <= EndOf(code)
    requires var i := SibAt(code); code.buf[i..i + |sib|] == sib && code.buf[i + |sib|..i + |sib| + |disp|] == disp
    ensures DispFits(code) && SibOf(code) == sib && DispOf(code) == disp
    ensures ImmAt(code) == SibAt(code) + |sib| + |disp|
  {
    assert SibFits(code) && DispAt(code) == SibAt(code) + |sib| && SibOf(code) == sib;
    assert DispLen(code) == |disp|;
  }

  lemma CodeBack(code: Code, i: nat, m: Byte, sib: seq<Byte>, disp: seq<Byte>)
    requires OpcodeFits(code) && BaseAttr(code).Has(Modrm) && i == ModrmAt(code)
    requires i + 1 + |sib| + |disp| <= EndOf(code) && code.buf[i..i + 1] == [m]
    requires code.buf[i + 1..i + 1 + |sib|] == sib && code.buf[i + 1 + |sib|..i + 1 + |sib| + |disp|] == disp
    requires SibLen([m], AddrOf(code)) == |sib| && DispSize([m], sib, AddrOf(code)) == |disp|
    ensures DispFits(code) && ModrmOf(code) == [m] && SibOf(code) == sib && DispOf(code) == disp
    ensures ImmAt(code) == i + 1 + |sib| + |disp|
  {
    ModrmBack(code, m);
    FieldsBack(code, m, sib, disp);
  }

  lemma EncodedIn(buf: seq<Byte>, i: nat, x: Operand, reg: nat, addr: nat, m: Byte, sib: seq<Byte>, disp: seq<Byte>)
    requires Encodable(x, addr) && reg < 8 && m == ModrmByte(x, reg, addr) && sib == SibBytes(x, addr)
    requires disp == DispBytes(x)
    requires var b := Encode(x, reg, addr); i + |b| <= |buf| && buf[i..i + |b|] == b
    ensures |Encode(x, reg, addr)| == 1 + |sib| + |disp|
    ensures buf[i..i + 1] == [m] && buf[i + 1..i + 1 + |sib|] == sib
    ensures buf[i + 1 + |sib|..i + 1 + |sib| + |disp|] == disp
    ensures SibLen([m], addr) == |sib| && DispSize([m], sib, addr) == |disp|
  {
    PartsIn(buf, i, m, sib, disp);
    SibBack(x, reg, addr);
    DispBack(x, reg, addr);
  }

  /** The fields of the code are the parts of the operand. */
  lemma OperandBack(code: Code, i: nat, addr: nat, x: Operand, reg: nat, m: Byte, sib: seq<Byte>, disp: seq<Byte>)
    requires Follows(code, x, reg) && i == ModrmAt(code) && addr == AddrOf(code)
    requires m == ModrmByte(x, reg, addr) && sib == SibBytes(x, addr) && disp == DispBytes(x)
    ensures DispFits(code) && ModrmOf(code) == [m] && SibOf(code) == sib && DispOf(code) == disp
    ensures ImmAt(code) == i + |Encode(x, reg, addr)|
  {
    EncodedIn(code.buf, i, x, reg, addr, m, sib, disp);
    CodeBack(code, i, m, sib, disp);
  }

  /** `insn_get_displacement` on a new instruction gives back the ModRM byte, the SIB byte and the
      displacement of the operand that was written, and stops behind them. */
  method GetOperand(code: Code, ghost x: Operand, ghost reg: nat) returns (insn: Insn)
    requires ScansOnce(code) && Follows(code, x, reg)
    ensures var addr := AddrOf(code);
      && insn.s.back.modrm.bytes == [ModrmByte(x, reg, addr)] && insn.s.back.modrm.got
      && insn.s.back.sib.bytes == SibBytes(x, addr) && insn.s.back.sib.got
      && insn.s.back.displacement.bytes == DispBytes(x) && insn.s.back.displacement.got
      && insn.s.next == ModrmAt(code) + |Encode(x, reg, addr)|
  {
    insn := new Insn(code);
    ghost var addr := AddrOf(code);
    OperandBack(code, ModrmAt(code), addr, x, reg, ModrmByte(x, reg, addr), SibBytes(x, addr), DispBytes(x));
    insn.GetDisplacement();
  }

  // --- Every code is that of an operand ------------------------------------------------------------------

  /** The operand that the bytes after an opcode stand for. */
  ghost function Read(b: seq<Byte>, addrBytes: nat): (x: Operand)
    requires |b| >= 6
  {
    var mod, rm := b[0] / 64, b[0] % 8;
    if mod == 3 then Register(rm)
    else if addrBytes == 2 then
      if mod == 0 && rm == 6 then Direct16(b[1..3]) else Form16(rm, b[1..1 + mod])
    else
      var n := if mod == 2 then 4 else mod;
      if rm != 4 then (if mod == 0 && rm == 5 then Direct(b[1..5]) else Based(rm, b[1..1 + n]))
      else
        var scale, index, base := b[1] / 64, b[1] / 8 % 8, b[1] % 8;
        if mod == 0 && base == 5 then IndexedOnly(scale, index, b[2..6])
        else Indexed(scale, index, base, b[2..2 + n])
  }

  lemma Repacked(b: Byte)
    ensures b / 64 < 4 && b / 8 % 8 < 8 && b % 8 < 8 && b == Packed(b / 64, b / 8 % 8, b % 8)
  {
  }

  lemma ReadModrm(b: seq<Byte>, addrBytes: nat)
    requires |b| >= 6
    ensures Encodable(Read(b, addrBytes), addrBytes) && ModrmByte(Read(b, addrBytes), b[0] / 8 % 8, addrBytes) == b[0]
  {
    Repacked(b[0]);
  }

  lemma ReadSib(b: seq<Byte>, addrBytes: nat)
    requires |b| >= 6 && Encodable(Read(b, addrBytes), addrBytes)
    ensures var sib, disp := SibBytes(Read(b, addrBytes), addrBytes), DispBytes(Read(b, addrBytes));
      && |sib| <= 1 && |disp| <= 4 && sib == b[1..1 + |sib|] && disp == b[1 + |sib|..1 + |sib| + |disp|]
  {
    Repacked(b[1]);
  }

  lemma Begins(b: seq<Byte>, m: Byte, sib: seq<Byte>, disp: seq<Byte>)
    requires |b| >= 1 + |sib| + |disp| && m == b[0] && sib == b[1..1 + |sib|]
    requires disp == b[1 + |sib|..1 + |sib| + |disp|]
    ensures [m] + sib + disp <= b
  {
  }

  /** Whatever bytes follow the opcode, they begin with those of an operand. */
  lemma EveryOperand(b: seq<Byte>, addrBytes: nat)
    requires |b| >= 6
    ensures Encodable(Read(b, addrBytes), addrBytes) && Encode(Read(b, addrBytes), b[0] / 8 % 8, addrBytes) <= b
  {
    ReadModrm(b, addrBytes);
    ReadSib(b, addrBytes);
    Begins(b, b[0], SibBytes(Read(b, addrBytes), addrBytes), DispBytes(Read(b, addrBytes)));
  }

  // --- Immediates and the length ---------------------------------------------------------------------------

  /** The bytes of an offset or immediate: an offset is as wide as an address; an immediate has one, two,
      four or eight bytes, or is a far pointer of an operand and a selector, or as wide as an operand,
      up to four bytes or in full. */
  ghost function ImmWidth(a: Attr, addrBytes: nat, opndBytes: nat): nat {
    if a.Has(Moffset) then addrBytes
    else match a.Imm()
      case 1 => 1
      case 2 => 2
      case 3 => 4
      case 4 => 8
      case 5 => opndBytes + 2
      case 6 => if opndBytes < 4 then opndBytes else 4
      case 7 => opndBytes
      case _ => 0
  }

  ghost function SecondWidth(a: Attr): nat { if WithSecond(a) then 1 else 0 }

  lemma WidthIs(a: Attr, addrBytes: nat, opndBytes: nat)
    requires KindKnown(a, addrBytes, opndBytes)
    ensures ImmLen(a, addrBytes, opndBytes) == ImmWidth(a, addrBytes, opndBytes)
  {
  }

  /** An instruction ends behind its immediates. */
  lemma EndIs(code: Code, n: nat)
    requires DispFits(code) && KindKnown(AttrOf(code), AddrOf(code), OpndOf(code))
    requires n == ImmAt(code) + ImmWidth(AttrOf(code), AddrOf(code), OpndOf(code)) + SecondWidth(AttrOf(code))
    requires n <= EndOf(code)
    ensures Whole(code) && InsnEnd(code) == n
  {
    WidthIs(AttrOf(code), AddrOf(code), OpndOf(code));
  }

  /** `insn_get_length` on a new instruction gives the length of what was written: prefixes, opcode,
      operand and immediates. */
  method Measure(code: Code, ghost x: Operand, ghost reg: nat) returns (length: nat, complete: bool)
    requires ScansOnce(code) && Follows(code, x, reg)
    ensures ModrmFits(code)
    ensures var a, addr, opnd := AttrOf(code), AddrOf(code), OpndOf(code);
      var n := ModrmAt(code) + |Encode(x, reg, addr)| + ImmWidth(a, addr, opnd) + SecondWidth(a);
      KindKnown(a, addr, opnd) && n <= EndOf(code) ==> complete && length == n
  {
    var insn := new Insn(code);
    ghost var addr := AddrOf(code);
    OperandBack(code, ModrmAt(code), addr, x, reg, ModrmByte(x, reg, addr), SibBytes(x, addr), DispBytes(x));
    ghost var a, opnd := AttrOf(code), OpndOf(code);
    ghost var n := ImmAt(code) + ImmWidth(a, addr, opnd) + SecondWidth(a);
    if KindKnown(a, addr, opnd) && n <= EndOf(code) { EndIs(code, n); }
    insn.GetLength();
    length, complete := insn.length, Complete(insn.s);
  }

  // --- REX, VEX and EVEX prefixes ---------------------------------------------------------------------------

  ghost function Bit(b: bool): nat { if b then 1 else 0 }

  /** The fields of a prefix as they stand in its bytes: register extensions, the opcode map, the width,
      a further register, the vector length, the mandatory prefix; an EVEX prefix has more. */
  datatype Vex =
    | Vex2(r: bool, v: nat, l: bool, p: nat)
    | Vex3(r: bool, x: bool, b: bool, m: nat, w: bool, v: nat, l: bool, p: nat)
    | Evex(r: bool, x: bool, rest: nat, m: nat, w: bool, v: nat, p: nat, z: bool, last: nat)

  ghost predicate InWidth(f: Vex) {
    && f.v < 16 && f.p < 4 && (f.Vex3? ==> f.m < 32)
    && (f.Evex? ==> f.m < 4 && f.rest < 16 && f.last < 128)
  }

  /** The bytes after the first. */
  ghost function Payload(f: Vex): seq<Byte>
    requires InWidth(f)
  {
    match f
    case Vex2(r, v, l, p) => [Bit(r) * 128 + v * 8 + Bit(l) * 4 + p]
    case Vex3(r, x, b, m, w, v, l, p) =>
      [Bit(r) * 128 + Bit(x) * 64 + Bit(b) * 32 + m, Bit(w) * 128 + v * 8 + Bit(l) * 4 + p]
    case Evex(r, x, rest, m, w, v, p, z, last) =>
      [Bit(r) * 128 + Bit(x) * 64 + rest * 4 + m, Bit(w) * 128 + v * 8 + 4 + p, Bit(z) * 128 + last]
  }

  /** The first byte is one for such a prefix. */
  ghost predicate Starts(a: Attr, f: Vex) { IsVex(a) && (IsVex3(a) <==> f.Vex3?) && (IsEvex(a) <==> f.Evex?) }

  /** In 32-bit mode both top bits tell it from another instruction. */
  ghost predicate Allowed(x86_64: bool, f: Vex) {
    x86_64 || (f.r && if f.Vex2? then f.v >= 8 else f.x)
  }

  /** The prefix stands at `i`. */
  ghost predicate VexStands(code: Code, i: nat, f: Vex) {
    && InWidth(f) && Allowed(code.x86_64, f) && i + 1 + |Payload(f)| <= EndOf(code)
    && code.buf[i + 1..i + 1 + |Payload(f)|] == Payload(f) && Starts(code.tables.opcode(code.buf[i]), f)
  }

  lemma TopBits(r: bool, x: bool, rest: nat)
    requires rest < 64
    ensures (Bit(r) * 128 + Bit(x) * 64 + rest) / 64 == 3 <==> r && x
  {
  }

  lemma LowTwo(q: nat, p: nat)
    requires p < 4
    ensures (4 * q + p) % 4 == p
  {
  }

  lemma LowFive(q: nat, m: nat)
    requires m < 32
    ensures (32 * q + m) % 32 == m
  {
  }

  lemma TopBit(w: bool, rest: nat)
    requires rest < 128
    ensures (Bit(w) * 128 + rest) / 128 == 1 <==> w
    ensures (Bit(w) * 128 + rest) % 128 == rest
  {
  }

  /** The opcode map that the prefix names; a prefix of two bytes names the first. */
  ghost function MapOf(f: Vex): nat { if f.Vex2? then 1 else f.m }

  lemma Vex2Back(code: Code, i: nat, f: Vex)
    requires VexStands(code, i, f) && f.Vex2?
    ensures VexFits(code, i) && VexLen(code, i) == 2
    ensures var v := VexBytes(code, i); VexM(v, 2) == 1 && VexP(v, 2) == f.p && !VexWide(code.x86_64, v, 2)
  {
    var b := Payload(f)[0];
    assert code.buf[i + 1] == b;
    if f.v >= 8 { TopBits(f.r, true, (f.v - 8) * 8 + Bit(f.l) * 4 + f.p); }
    assert b == 4 * (Bit(f.r) * 32 + f.v * 2 + Bit(f.l)) + f.p;
    LowTwo(Bit(f.r) * 32 + f.v * 2 + Bit(f.l), f.p);
  }

  lemma Vex3Back(code: Code, i: nat, f: Vex)
    requires VexStands(code, i, f) && f.Vex3?
    ensures VexFits(code, i) && VexLen(code, i) == 3
    ensures var v := VexBytes(code, i);
      VexM(v, 3) == f.m && VexP(v, 3) == f.p && (VexWide(code.x86_64, v, 3) <==> code.x86_64 && f.w)
  {
    var b1, b2 := Payload(f)[0], Payload(f)[1];
    assert code.buf[i + 1] == b1 && code.buf[i + 2] == b2;
    TopBits(f.r, f.x, Bit(f.b) * 32 + f.m);
    assert b1 == 32 * (Bit(f.r) * 4 + Bit(f.x) * 2 + Bit(f.b)) + f.m;
    LowFive(Bit(f.r) * 4 + Bit(f.x) * 2 + Bit(f.b), f.m);
    assert b2 == 4 * (Bit(f.w) * 32 + f.v * 2 + Bit(f.l)) + f.p;
    LowTwo(Bit(f.w) * 32 + f.v * 2 + Bit(f.l), f.p);
    TopBit(f.w, f.v * 8 + Bit(f.l) * 4 + f.p);
  }

  /** For an EVEX prefix the decoder takes the top bit of the last byte for the width. */
  lemma EvexBack(code: Code, i: nat, f: Vex)
    requires VexStands(code, i, f) && f.Evex?
    ensures VexFits(code, i) && VexLen(code, i) == 4
    ensures var v := VexBytes(code, i);
      VexM(v, 4) == f.m && VexP(v, 4) == f.p && (VexWide(code.x86_64, v, 4) <==> code.x86_64 && f.z)
  {
    var b1, b2, b3 := Payload(f)[0], Payload(f)[1], Payload(f)[2];
    assert code.buf[i + 1] == b1 && code.buf[i + 2] == b2 && code.buf[i + 3] == b3;
    TopBits(f.r, f.x, f.rest * 4 + f.m);
    assert b1 == 4 * (Bit(f.r) * 32 + Bit(f.x) * 16 + f.rest) + f.m;
    LowTwo(Bit(f.r) * 32 + Bit(f.x) * 16 + f.rest, f.m);
    assert b2 == 4 * (Bit(f.w) * 32 + f.v * 2 + 1) + f.p;
    LowTwo(Bit(f.w) * 32 + f.v * 2 + 1, f.p);
    TopBit(f.z, f.last);
  }

  /** The prefix says that operands are wide. */
  ghost predicate SaysWide(f: Vex) { !f.Vex2? && f.w }

  /** The decoder gets length, opcode map and mandatory prefix of every prefix back; the width too, but
      for an EVEX prefix whose width bit is not the top bit of its last byte. */
  lemma VexBack(code: Code, i: nat, f: Vex)
    requires VexStands(code, i, f)
    ensures VexFits(code, i) && VexLen(code, i) == 1 + |Payload(f)|
    ensures var v, n := VexBytes(code, i), VexLen(code, i);
      VexM(v, n) == MapOf(f) && VexP(v, n) == f.p && (code.buf[i] != 0 ==> Avx(v))
    ensures var v, n := VexBytes(code, i), VexLen(code, i);
      (VexWide(code.x86_64, v, n) <==> code.x86_64 && SaysWide(f)) <==> (code.x86_64 && f.Evex? ==> f.w == f.z)
  {
    match f
    case Vex2(_, _, _, _) => Vex2Back(code, i, f);
    case Vex3(_, _, _, _, _, _, _, _) => Vex3Back(code, i, f);
    case Evex(_, _, _, _, _, _, _, _, _) => EvexBack(code, i, f);
  }

  /** Without a prefix there is nothing for an instruction with one. */
  lemma NoVex(code: Code, i: nat)
    requires VexFits(code, i) && VexLen(code, i) == 0
    ensures !Avx(VexBytes(code, i))
  {
  }

  /** A mandatory prefix counts the same, as a legacy prefix and as a field; no other prefix counts. */
  lemma MandatoryPrefix(a: Attr, vex: seq<Byte>, n: nat)
    requires |vex| == 4
    ensures VexP(vex, n) > 0 && a.Prefix() == VexP(vex, n) ==> LastPrefixOf(a) == VexP(vex, n)
    ensures a.Prefix() > 3 ==> LastPrefixOf(a) == 0
  {
  }

  /** Every prefix is of one class; the size prefixes are legacy ones. */
  lemma PrefixClasses(a: Attr)
    ensures 1 <= a.Prefix() <= 15 <==> IsLegacy(a) || IsRex(a) || IsVex(a)
    ensures !(IsLegacy(a) && IsRex(a)) && !(IsLegacy(a) && IsVex(a)) && !(IsRex(a) && IsVex(a))
    ensures (IsOperandSize(a) || IsAddressSize(a) ==> IsLegacy(a)) && (IsVex3(a) || IsEvex(a) ==> IsVex(a))
  {
  }

  /** The decoder looks at all the bytes there are, up to fifteen. */
  lemma LimitIs(code: Code)
    ensures EndOf(code) == |code.buf| <= 15 || EndOf(code) == 15 < |code.buf|
  {
  }

  /** The byte 62 starts an EVEX prefix, as in the shipped map; the bytes are those of one with wide
      operands and the top bit of its last byte clear. */
  function WideExample(): Code {
    Code([0x62, 0xF1, 0xFD, 0x48, 0x58], true,
         Tables(b => Attr(if b == 0x62 then 15 else 0, 0, 0, 0, {}), (_, _, a) => a, (_, _, a) => a, (_, _, _) => Bad))
  }

  lemma WideLost()
    ensures var f := Evex(true, true, 12, 1, true, 15, 1, false, 0x48);
      VexStands(WideExample(), 0, f) && SaysWide(f) && !VexWide(true, VexBytes(WideExample(), 0), 4)
  {
    var f := Evex(true, true, 12, 1, true, 15, 1, false, 0x48);
    assert Payload(f) == [0xF1, 0xFD, 0x48];
    assert WideExample().buf[1..4] == [0xF1, 0xFD, 0x48];
    EvexBack(WideExample(), 0, f);
  }

  /** The bytes of a REX prefix, and its width bit. */
  lemma RexBack(w: bool, rest: nat)
    requires rest < 8
    ensures RexW(0x40 + Bit(w) * 8 + rest) <==> w
  {
  }
}
